/**
 * The bookkeeping behind `_collectDataMenus`'s reverse loop: what the object
 * indexed under each position holds while the positions are pushed, from the
 * last one backwards, into their parents' `submenu` arrays.
 */
module Nesting {
  import opened MenuTypes
  import opened Collect

  /** Every parent precedes its child, as the backward lookup guarantees. */
  predicate ParentsPrecede(par: seq<Option<nat>>) {
    forall c :: 0 <= c < |par| && par[c].Some? ==> par[c].value < c
  }

  /**
   * The positions pushed onto the `submenu` of the object indexed under `j`
   * once every position from `lo` on has been pushed: its children from `lo`
   * on, latest push last, i.e. in descending position.
   */
  function Pushed(par: seq<Option<nat>>, j: nat, lo: nat): (cs: seq<nat>)
    requires lo <= |par|
    decreases |par| - lo
    ensures forall k :: 0 <= k < |cs| ==> lo <= cs[k] < |par|
  {
    if lo == |par| then []
    else Pushed(par, j, lo + 1) + (if par[lo] == Some(j) then [lo] else [])
  }

  /** The object indexed under position `j` once every position from `lo` on has been pushed. */
  ghost function PartialNode(s: seq<Item>, par: seq<Option<nat>>, j: nat, lo: nat): Pending
    requires |par| == |s| && j < lo <= |s|
  {
    Pending(s[j].data, j, NodesAt(s, par, true, Pushed(par, j, lo), j))
  }

  /** Before any push, every object has an empty `submenu`. */
  lemma {:induction false} PartialStart(s: seq<Item>, par: seq<Option<nat>>, j: nat)
    requires |par| == |s| && j < |s|
    ensures PartialNode(s, par, j, |s|) == Pending(s[j].data, j, [])
  {
  }

  /** The pushes are the children from `lo` on, in descending position. */
  lemma {:induction false} PushedReversed(par: seq<Option<nat>>, j: nat, lo: nat)
    requires lo <= |par|
    ensures Pushed(par, j, lo) == Reversed(WithParent(par, Some(j), lo))
    decreases |par| - lo
  {
    if lo == |par| {
      assert WithParent(par, Some(j), lo) == [];
    } else {
      PushedReversed(par, j, lo + 1);
      var rest := WithParent(par, Some(j), lo + 1);
      WithParentStep(par, Some(j), lo);
      if par[lo] == Some(j) {
        ReversedCons(lo, rest);
      } else {
        assert Pushed(par, j, lo) == Pushed(par, j, lo + 1) + [];
      }
    }
  }

  /** Once the positions after `i` are pushed, the object at `i` is its finished node. */
  lemma {:induction false} PartialComplete(s: seq<Item>, par: seq<Option<nat>>, i: nat)
    requires |par| == |s| && i < |s|
    ensures PartialNode(s, par, i, i + 1) == NodeAt(s, par, true, i)
  {
    PushedReversed(par, i, i + 1);
  }

  /** Pushing position `i` appends its finished node to its parent's `submenu`. */
  lemma {:induction false} PushIntoParent(s: seq<Item>, par: seq<Option<nat>>, p: nat, i: nat)
    requires |par| == |s| && p < i < |s| && par[i] == Some(p)
    ensures var before := PartialNode(s, par, p, i + 1);
      PartialNode(s, par, p, i) == before.(submenu := before.submenu + [NodeAt(s, par, true, i)])
  {
    NodesAtSnoc(s, par, true, Pushed(par, p, i + 1), i, p);
  }

  /** Pushing position `i` leaves every object other than its parent as it was. */
  lemma {:induction false} PushElsewhere(s: seq<Item>, par: seq<Option<nat>>, j: nat, i: nat)
    requires |par| == |s| && j < i < |s| && par[i] != Some(j)
    ensures PartialNode(s, par, j, i) == PartialNode(s, par, j, i + 1)
  {
    var rest := Pushed(par, j, i + 1);
    assert Pushed(par, j, i) == rest + [];
    assert rest + [] == rest;
  }

  /** The positions still in the table once every position after `i` has been pushed. */
  ghost function Remaining(par: seq<Option<nat>>, i: int): set<nat> {
    set j: nat | j < |par| && (j <= i || par[j].None?)
  }

  /**
   * The table of the reverse loop once every position after `i` has been
   * pushed: it still holds every position up to `i`, each with the children
   * pushed so far, and of the later positions only the top-level ones, each
   * its finished node.
   */
  ghost predicate NestedFrom(s: seq<Item>, par: seq<Option<nat>>, table: map<nat, Pending>, i: int)
    requires |par| == |s| && -1 <= i < |s|
  {
    table.Keys == Remaining(par, i) &&
    (forall j: nat :: j <= i ==> j in table && table[j] == PartialNode(s, par, j, i + 1)) &&
    (forall j: nat :: i < j < |s| && par[j].None? ==> j in table && table[j] == NodeAt(s, par, true, j))
  }

  /** The table the reverse loop starts from. */
  lemma {:induction false} NestStart(s: seq<Item>, par: seq<Option<nat>>, table: map<nat, Pending>)
    requires |par| == |s|
    requires forall j: nat :: j in table <==> j < |s|
    requires forall j: nat :: j in table ==> table[j] == Pending(s[j].data, j, [])
    ensures NestedFrom(s, par, table, |s| - 1)
  {
    assert table.Keys == Remaining(par, |s| - 1);
    forall j: nat | j < |s|
      ensures table[j] == PartialNode(s, par, j, |s|)
    {
      PartialStart(s, par, j);
    }
  }

  /** Pushing position `i` drops it from the table when it has a parent. */
  lemma {:induction false} RemainingStep(par: seq<Option<nat>>, i: nat)
    requires i < |par|
    ensures par[i].Some? ==> Remaining(par, i - 1) == Remaining(par, i) - {i}
    ensures par[i].None? ==> Remaining(par, i - 1) == Remaining(par, i)
  {
  }

  /**
   * One step of the reverse loop: position `i`, finished, is appended to its
   * parent's `submenu` and dropped from the table; a top-level position stays.
   */
  lemma {:induction false} NestStep(s: seq<Item>, par: seq<Option<nat>>, table: map<nat, Pending>, after: map<nat, Pending>, i: nat)
    requires |par| == |s| && ParentsPrecede(par) && i < |s|
    requires NestedFrom(s, par, table, i)
    requires par[i].None? ==> after == table
    requires par[i].Some? ==>
      var p := par[i].value;
      after == table[p := table[p].(submenu := table[p].submenu + [table[i]])] - {i}
    ensures NestedFrom(s, par, after, i - 1)
  {
    if par[i].Some? {
      NestPush(s, par, table, after, i, par[i].value);
    } else {
      NestKeep(s, par, table, i);
    }
  }

  lemma {:induction false} NestPush(s: seq<Item>, par: seq<Option<nat>>, table: map<nat, Pending>, after: map<nat, Pending>, i: nat, p: nat)
    requires |par| == |s| && i < |s| && par[i] == Some(p) && p < i
    requires NestedFrom(s, par, table, i)
    requires after == table[p := table[p].(submenu := table[p].submenu + [table[i]])] - {i}
    ensures NestedFrom(s, par, after, i - 1)
  {
    var mid := table[p := table[p].(submenu := table[p].submenu + [table[i]])];
    assert after == mid - {i};
    PartialComplete(s, par, i);
    RemainingStep(par, i);
    assert after.Keys == table.Keys - {i};
    PushIntoParent(s, par, p, i);
    forall j: nat | j < i
      ensures j in after && after[j] == PartialNode(s, par, j, i)
    {
      if j != p {
        PushElsewhere(s, par, j, i);
        assert mid[j] == table[j];
      }
    }
    forall j: nat | i - 1 < j < |s| && par[j].None?
      ensures j in after && after[j] == NodeAt(s, par, true, j)
    {
      assert j != i && j != p;
      assert j in table && table[j] == NodeAt(s, par, true, j);
      assert j in mid && mid[j] == table[j];
    }
  }

  lemma {:induction false} NestKeep(s: seq<Item>, par: seq<Option<nat>>, table: map<nat, Pending>, i: nat)
    requires |par| == |s| && i < |s| && par[i].None?
    requires NestedFrom(s, par, table, i)
    ensures NestedFrom(s, par, table, i - 1)
  {
    PartialComplete(s, par, i);
    RemainingStep(par, i);
    forall j: nat | j < i
      ensures table[j] == PartialNode(s, par, j, i)
    {
      PushElsewhere(s, par, j, i);
    }
  }

  /** The entries the loop's step reads are still in the table. */
  lemma {:induction false} NestKeys(s: seq<Item>, par: seq<Option<nat>>, table: map<nat, Pending>, i: nat)
    requires |par| == |s| && ParentsPrecede(par) && i < |s|
    requires NestedFrom(s, par, table, i)
    ensures i in table && (par[i].Some? ==> par[i].value in table)
  {
  }

  /** After the last step only the top-level positions remain, each its finished node. */
  lemma {:induction false} NestEnd(s: seq<Item>, par: seq<Option<nat>>, table: map<nat, Pending>)
    requires |par| == |s| && NestedFrom(s, par, table, -1)
    ensures forall j: nat :: j in table <==> j < |s| && par[j].None?
    ensures forall j: nat :: j in table ==> table[j] == NodeAt(s, par, true, j)
  {
    forall j: nat
      ensures j in table <==> j < |s| && par[j].None?
    {
      assert j in table <==> j in Remaining(par, -1);
    }
  }

  lemma {:induction false} ReversedCons<T>(x: T, cs: seq<T>)
    ensures Reversed([x] + cs) == Reversed(cs) + [x]
  {
    assert ([x] + cs)[1..] == cs;
  }

  /** The nodes of a list of positions with one more position at the end. */
  lemma {:induction false} NodesAtSnoc(s: seq<Item>, par: seq<Option<nat>>, reversed: bool, cs: seq<nat>, x: nat, bound: int)
    requires |par| == |s| && -1 <= bound < x < |s|
    requires forall k :: 0 <= k < |cs| ==> bound < cs[k] < |s|
    ensures NodesAt(s, par, reversed, cs + [x], bound) == NodesAt(s, par, reversed, cs, bound) + [NodeAt(s, par, reversed, x)]
    decreases |cs|
  {
    if cs == [] {
      assert [] + [x] == [x];
    } else {
      assert (cs + [x])[0] == cs[0];
      assert (cs + [x])[1..] == cs[1..] + [x];
      NodesAtSnoc(s, par, reversed, cs[1..], x, bound);
    }
  }

  /** The nodes of a list of positions with one more position in front. */
  lemma {:induction false} NodesAtCons(s: seq<Item>, par: seq<Option<nat>>, reversed: bool, x: nat, cs: seq<nat>, bound: int)
    requires |par| == |s| && -1 <= bound < x < |s|
    requires forall k :: 0 <= k < |cs| ==> bound < cs[k] < |s|
    ensures NodesAt(s, par, reversed, [x] + cs, bound) == [NodeAt(s, par, reversed, x)] + NodesAt(s, par, reversed, cs, bound)
  {
    assert ([x] + cs)[0] == x;
    assert ([x] + cs)[1..] == cs;
  }

  /** With no orphan, collecting yields the cleaned top level. */
  lemma {:induction false} CollectedWhenNoOrphan(s: seq<Item>, par: seq<Option<nat>>, reversed: bool)
    requires |par| == |s|
    requires forall c :: 0 <= c < |s| ==> s[c].depth == 0 || par[c].Some?
    ensures CollectWith(s, par, reversed) == Collected(Cleaned(Forest(s, par, reversed)))
  {
    var ds := Depths(s);
    assert forall c :: 0 <= c < |ds| ==> ds[c] == 0 || par[c].Some?;
  }

  /** The first nested position without a parent is the one collecting fails at. */
  lemma {:induction false} CollectFailsAt(s: seq<Item>, par: seq<Option<nat>>, reversed: bool, c: nat)
    requires |par| == |s| && c < |s| && s[c].depth != 0 && par[c].None?
    requires forall j :: 0 <= j < c ==> s[j].depth == 0 || par[j].Some?
    ensures CollectWith(s, par, reversed) == NullParent(c)
  {
    var ds := Depths(s);
    assert forall j :: 0 <= j < c ==> ds[j] == 0 || par[j].Some?;
    assert ds[c] != 0;
  }
}
