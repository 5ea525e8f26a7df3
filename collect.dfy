/**
 * Flat list to tree: `_collectDataMenus` tags every item with its position and
 * its lookup parent's position, walks the positions from last to first pushing
 * each tagged item into its parent's `submenu`, keeps the untagged ones (the
 * top level) in position order, and finally deletes the bookkeeping keys and
 * every empty `submenu`.
 *
 * The result is described here as a function of the list and of the parent
 * each position was given: the node at position `i` holds, as its submenu,
 * the nodes of the positions whose parent is `i`. The code as written lists
 * them in descending position: its "sort by index" comparator reads a key that
 * is never set, every comparison is NaN, and a stable sort then keeps the push
 * order, which runs from the last position backwards. The corrected variant
 * lists them in ascending position, as the comment above that sort intends.
 */
module Collect {
  import opened MenuTypes
  import opened ParentLookup

  /**
   * A data object while `_collectDataMenus` runs: its fields, its position
   * (the `field_index` key) and a `submenu` array that is always present.
   */
  datatype Pending = Pending(fields: Fields, index: nat, submenu: seq<Pending>)

  /**
   * What `data()` yields: the menu document, or the TypeError thrown at the
   * first nested item the lookup finds no parent for (`$menu_parent.index()`
   * on null).
   */
  datatype CollectResult = Collected(menus: seq<MenuNode>) | NullParent(position: nat)

  function Reversed<T>(s: seq<T>): (r: seq<T>)
    ensures |r| == |s|
    ensures forall k :: 0 <= k < |s| ==> r[k] == s[|s| - 1 - k]
  {
    if s == [] then [] else Reversed(s[1..]) + [s[0]]
  }

  /** Sibling order: as pushed (descending position) or, corrected, ascending. */
  function Ordered(cs: seq<nat>, reversed: bool): (r: seq<nat>)
    ensures |r| == |cs|
    ensures forall k :: 0 <= k < |r| ==> r[k] == if reversed then cs[|cs| - 1 - k] else cs[k]
  {
    if reversed then Reversed(cs) else cs
  }

  lemma {:induction false} OrderedKeeps(cs: seq<nat>, reversed: bool, c: nat)
    requires c in cs
    ensures c in Ordered(cs, reversed)
  {
    var m :| 0 <= m < |cs| && cs[m] == c;
    if reversed {
      assert Ordered(cs, reversed)[|cs| - 1 - m] == c;
    }
  }

  /** The parent position the code gives every item (`_findParentMenuOf` as written). */
  function ParentsAsWritten(ds: seq<int>): (par: seq<Option<nat>>)
    ensures |par| == |ds|
    ensures forall c :: 0 <= c < |ds| ==> par[c] == ParentOf(ds, c)
  {
    seq(|ds|, c requires 0 <= c < |ds| => ParentOf(ds, c))
  }

  /** The parent position under the corrected lookup. */
  function ParentsIntended(ds: seq<int>): (par: seq<Option<nat>>)
    ensures |par| == |ds|
    ensures forall c :: 0 <= c < |ds| ==> par[c] == ParentOfIntended(ds, c)
  {
    seq(|ds|, c requires 0 <= c < |ds| => ParentOfIntended(ds, c))
  }

  /** The positions from `lo` on whose parent is `q`, in ascending order. */
  function WithParent(par: seq<Option<nat>>, q: Option<nat>, lo: nat): (cs: seq<nat>)
    requires lo <= |par|
    decreases |par| - lo
    ensures forall k :: 0 <= k < |cs| ==> lo <= cs[k] < |par|
  {
    if lo == |par| then []
    else (if par[lo] == q then [lo] else []) + WithParent(par, q, lo + 1)
  }

  /** `cs` lists, in increasing order, exactly the positions from `lo` on whose parent is `q`. */
  predicate ListsChildren(par: seq<Option<nat>>, q: Option<nat>, lo: nat, cs: seq<nat>) {
    (forall k :: 0 <= k < |cs| ==> lo <= cs[k] < |par| && par[cs[k]] == q) &&
    (forall k, l :: 0 <= k < l < |cs| ==> cs[k] < cs[l]) &&
    (forall c :: lo <= c < |par| && par[c] == q ==> c in cs)
  }

  lemma {:induction false} WithParentListsChildren(par: seq<Option<nat>>, q: Option<nat>, lo: nat)
    requires lo <= |par|
    ensures ListsChildren(par, q, lo, WithParent(par, q, lo))
    decreases |par| - lo
  {
    if lo < |par| {
      WithParentListsChildren(par, q, lo + 1);
      ListsChildrenStep(par, q, lo);
    }
  }

  lemma {:induction false} ListsChildrenStep(par: seq<Option<nat>>, q: Option<nat>, lo: nat)
    requires lo < |par| && ListsChildren(par, q, lo + 1, WithParent(par, q, lo + 1))
    ensures ListsChildren(par, q, lo, WithParent(par, q, lo))
  {
    var r := WithParent(par, q, lo + 1);
    WithParentStep(par, q, lo);
    if par[lo] == q {
      ListsChildrenCons(par, q, lo, r);
    } else {
      ListsChildrenSkip(par, q, lo, r);
    }
  }

  /** One step of `WithParent`: position `lo` is listed first exactly when its parent is `q`. */
  lemma {:induction false} WithParentStep(par: seq<Option<nat>>, q: Option<nat>, lo: nat)
    requires lo < |par|
    ensures par[lo] == q ==> WithParent(par, q, lo) == [lo] + WithParent(par, q, lo + 1)
    ensures par[lo] != q ==> WithParent(par, q, lo) == WithParent(par, q, lo + 1)
  {
  }

  lemma {:induction false} ListsChildrenCons(par: seq<Option<nat>>, q: Option<nat>, lo: nat, r: seq<nat>)
    requires lo < |par| && par[lo] == q && ListsChildren(par, q, lo + 1, r)
    ensures ListsChildren(par, q, lo, [lo] + r)
  {
    var cs := [lo] + r;
    forall k | 0 < k < |cs| ensures cs[k] == r[k - 1] {
    }
    forall c | lo < c < |par| && par[c] == q ensures c in cs {
      assert c in r;
    }
  }

  lemma {:induction false} ListsChildrenSkip(par: seq<Option<nat>>, q: Option<nat>, lo: nat, r: seq<nat>)
    requires lo < |par| && par[lo] != q && ListsChildren(par, q, lo + 1, r)
    ensures ListsChildren(par, q, lo, r)
  {
  }

  /** The node built for position `i`: its data, its position, and the nodes of its children. */
  function NodeAt(s: seq<Item>, par: seq<Option<nat>>, reversed: bool, i: nat): (p: Pending)
    requires |par| == |s| && i < |s|
    decreases |s| - i, 1, 0
  {
    var kids := Ordered(WithParent(par, Some(i), i + 1), reversed);
    Pending(s[i].data, i, NodesAt(s, par, reversed, kids, i))
  }

  function NodesAt(s: seq<Item>, par: seq<Option<nat>>, reversed: bool, cs: seq<nat>, bound: int): (r: seq<Pending>)
    requires |par| == |s| && -1 <= bound
    requires forall k :: 0 <= k < |cs| ==> bound < cs[k] < |s|
    decreases |s| - bound, 0, |cs|
    ensures |r| == |cs|
  {
    if cs == [] then [] else [NodeAt(s, par, reversed, cs[0])] + NodesAt(s, par, reversed, cs[1..], bound)
  }

  /** The nodes built for the positions `cs` carry those positions and their data, in order. */
  lemma {:induction false} NodesAtPositions(s: seq<Item>, par: seq<Option<nat>>, reversed: bool, cs: seq<nat>, bound: int)
    requires |par| == |s| && -1 <= bound
    requires forall k :: 0 <= k < |cs| ==> bound < cs[k] < |s|
    ensures var r := NodesAt(s, par, reversed, cs, bound);
      forall k :: 0 <= k < |cs| ==> r[k].index == cs[k] && r[k].fields == s[cs[k]].data
    decreases |cs|
  {
    if cs != [] {
      NodesAtPositions(s, par, reversed, cs[1..], bound);
      var r := NodesAt(s, par, reversed, cs, bound);
      assert r == [NodeAt(s, par, reversed, cs[0])] + NodesAt(s, par, reversed, cs[1..], bound);
      forall k | 0 < k < |cs| ensures r[k].index == cs[k] && r[k].fields == s[cs[k]].data {
        assert r[k] == NodesAt(s, par, reversed, cs[1..], bound)[k - 1];
      }
    }
  }

  /** The top level: the nodes of the positions without a parent, ascending (`Object.values` of integer keys). */
  function Forest(s: seq<Item>, par: seq<Option<nat>>, reversed: bool): seq<Pending>
    requires |par| == |s|
  {
    NodesAt(s, par, reversed, WithParent(par, None, 0), -1)
  }

  /** The first position from `lo` on of a nested item that has no parent. */
  function FirstOrphan(ds: seq<int>, par: seq<Option<nat>>, lo: nat): (r: Option<nat>)
    requires |par| == |ds| && lo <= |ds|
    decreases |ds| - lo
    ensures r.Some? ==> lo <= r.value < |ds| && ds[r.value] != 0 && par[r.value].None?
    ensures r.Some? ==> forall c :: lo <= c < r.value ==> ds[c] == 0 || par[c].Some?
    ensures r.None? ==> forall c :: lo <= c < |ds| ==> ds[c] == 0 || par[c].Some?
  {
    if lo == |ds| then None
    else if ds[lo] != 0 && par[lo].None? then Some(lo)
    else FirstOrphan(ds, par, lo + 1)
  }

  /** `cleanupMenu` on one object: drop the position key, and the `submenu` key when it is empty. */
  function CleanedNode(p: Pending): MenuNode
    decreases p
  {
    if p.submenu == [] then Leaf(p.fields) else Branch(p.fields, Cleaned(p.submenu))
  }

  /** `cleanupMenu` on an array of objects. */
  function Cleaned(ps: seq<Pending>): (r: seq<MenuNode>)
    decreases ps
    ensures |r| == |ps|
  {
    if ps == [] then [] else [CleanedNode(ps[0])] + Cleaned(ps[1..])
  }

  /** The output form: a `submenu` key is present only with at least one entry, at every level. */
  predicate CanonicalNode(t: MenuNode)
    decreases t
  {
    match t
    case Leaf(_) => true
    case Branch(_, sub) => sub != [] && Canonical(sub)
  }

  predicate Canonical(ts: seq<MenuNode>)
    decreases ts
  {
    forall k :: 0 <= k < |ts| ==> CanonicalNode(ts[k])
  }

  function CollectWith(s: seq<Item>, par: seq<Option<nat>>, reversed: bool): CollectResult
    requires |par| == |s|
  {
    match FirstOrphan(Depths(s), par, 0)
    case Some(c) => NullParent(c)
    case None => Collected(Cleaned(Forest(s, par, reversed)))
  }

  /** `_collectDataMenus` as written. */
  function CollectAsWritten(s: seq<Item>): CollectResult {
    CollectWith(s, ParentsAsWritten(Depths(s)), true)
  }

  /** `_collectDataMenus` with the corrected lookup and the sort the comment intends. */
  function CollectIntended(s: seq<Item>): CollectResult {
    CollectWith(s, ParentsIntended(Depths(s)), false)
  }

  /**
   * Cleaning keeps every object, in order, with its fields; it keeps the
   * `submenu` key exactly when the array is non-empty, and leaves the whole
   * document in output form.
   */
  lemma {:induction false} CleanedIsCanonical(ps: seq<Pending>)
    ensures var r := Cleaned(ps);
      Canonical(r) &&
      forall k :: 0 <= k < |ps| ==>
        r[k].fields == ps[k].fields && (r[k].Branch? <==> ps[k].submenu != []) &&
        |Children(r[k])| == |ps[k].submenu|
    decreases ps
  {
    if ps != [] {
      CleanedIsCanonical(ps[1..]);
      if ps[0].submenu != [] {
        CleanedIsCanonical(ps[0].submenu);
      }
      var r := Cleaned(ps);
      assert r == [CleanedNode(ps[0])] + Cleaned(ps[1..]);
      forall k | 0 <= k < |ps|
        ensures CanonicalNode(r[k]) && r[k].fields == ps[k].fields &&
          (r[k].Branch? <==> ps[k].submenu != []) && |Children(r[k])| == |ps[k].submenu|
      {
        if k > 0 {
          assert r[k] == Cleaned(ps[1..])[k - 1];
        }
      }
    }
  }

  /**
   * Without an orphan, the top level of the document is exactly the
   * depth-0 items, each once, in ascending position.
   */
  lemma {:induction false} CollectTopLevel(s: seq<Item>)
    requires CollectAsWritten(s).Collected?
    ensures var roots := WithParent(ParentsAsWritten(Depths(s)), None, 0);
      var menus := CollectAsWritten(s).menus;
      |menus| == |roots| &&
      (forall k :: 0 <= k < |roots| ==> s[roots[k]].depth == 0 && menus[k].fields == s[roots[k]].data) &&
      (forall c :: 0 <= c < |s| && s[c].depth == 0 ==> c in roots) &&
      (forall k, l :: 0 <= k < l < |roots| ==> roots[k] < roots[l])
  {
    var ds := Depths(s);
    var par := ParentsAsWritten(ds);
    var roots := WithParent(par, None, 0);
    var top := Forest(s, par, true);
    var menus := CollectAsWritten(s).menus;
    assert FirstOrphan(ds, par, 0).None?;
    WrittenRoots(ds);
    assert menus == Cleaned(top);
    CleanedIsCanonical(top);
    NodesAtPositions(s, par, true, roots, -1);
  }

  /** Without an orphan, the roots as written are exactly the top-level positions, in order. */
  lemma {:induction false} WrittenRoots(ds: seq<int>)
    requires FirstOrphan(ds, ParentsAsWritten(ds), 0).None?
    ensures var roots := WithParent(ParentsAsWritten(ds), None, 0);
      (forall k :: 0 <= k < |roots| ==> roots[k] < |ds| && ds[roots[k]] == 0) &&
      (forall c :: 0 <= c < |ds| && ds[c] == 0 ==> c in roots) &&
      (forall k, l :: 0 <= k < l < |roots| ==> roots[k] < roots[l])
  {
    var par := ParentsAsWritten(ds);
    var roots := WithParent(par, None, 0);
    WithParentListsChildren(par, None, 0);
    forall k | 0 <= k < |roots|
      ensures ds[roots[k]] == 0
    {
      assert par[roots[k]].None?;
    }
  }

  /** Every entry of the submenu built at `i` is the node of a position given `i` as parent. */
  lemma {:induction false} SubmenuEntries(s: seq<Item>, par: seq<Option<nat>>, reversed: bool, i: nat)
    requires |par| == |s| && i < |s|
    ensures var kids := NodeAt(s, par, reversed, i).submenu;
      (forall k :: 0 <= k < |kids| ==>
         i < kids[k].index < |s| && par[kids[k].index] == Some(i) && kids[k].fields == s[kids[k].index].data) &&
      (forall k, l :: 0 <= k < l < |kids| ==> if reversed then kids[k].index > kids[l].index else kids[k].index < kids[l].index)
  {
    var cs := WithParent(par, Some(i), i + 1);
    WithParentListsChildren(par, Some(i), i + 1);
    var ord := Ordered(cs, reversed);
    var kids := NodeAt(s, par, reversed, i).submenu;
    assert kids == NodesAt(s, par, reversed, ord, i);
    NodesAtPositions(s, par, reversed, ord, i);
  }

  /** Every position given `i` as parent has its node in the submenu built at `i`. */
  lemma {:induction false} SubmenuComplete(s: seq<Item>, par: seq<Option<nat>>, reversed: bool, i: nat)
    requires |par| == |s| && i < |s|
    ensures var kids := NodeAt(s, par, reversed, i).submenu;
      forall c :: i < c < |s| && par[c] == Some(i) ==> exists k :: 0 <= k < |kids| && kids[k].index == c
  {
    var ord := Ordered(WithParent(par, Some(i), i + 1), reversed);
    SubmenuIs(s, par, reversed, i);
    ChildrenOrdered(par, reversed, i);
    NodesAtCover(s, par, reversed, ord, i, Some(i));
  }

  /** The submenu built at `i` is made of the nodes of `i`'s children, in the collection order. */
  lemma {:induction false} SubmenuIs(s: seq<Item>, par: seq<Option<nat>>, reversed: bool, i: nat)
    requires |par| == |s| && i < |s|
    ensures NodeAt(s, par, reversed, i).submenu == NodesAt(s, par, reversed, Ordered(WithParent(par, Some(i), i + 1), reversed), i)
  {
  }

  /** Every position given `i` as parent is among the positions whose nodes make up the submenu at `i`. */
  lemma {:induction false} ChildrenOrdered(par: seq<Option<nat>>, reversed: bool, i: nat)
    requires i < |par|
    ensures var ord := Ordered(WithParent(par, Some(i), i + 1), reversed);
      forall c :: i < c < |par| && par[c] == Some(i) ==> c in ord
  {
    var cs := WithParent(par, Some(i), i + 1);
    WithParentListsChildren(par, Some(i), i + 1);
    forall c | i < c < |par| && par[c] == Some(i)
      ensures c in Ordered(cs, reversed)
    {
      OrderedKeeps(cs, reversed, c);
    }
  }

  /** Every position with parent `q` listed in `cs` has its node among the nodes built for `cs`. */
  lemma {:induction false} NodesAtCover(s: seq<Item>, par: seq<Option<nat>>, reversed: bool, cs: seq<nat>, bound: int, q: Option<nat>)
    requires |par| == |s| && -1 <= bound
    requires forall k :: 0 <= k < |cs| ==> bound < cs[k] < |s|
    requires forall c :: bound < c < |s| && par[c] == q ==> c in cs
    ensures var r := NodesAt(s, par, reversed, cs, bound);
      forall c :: bound < c < |s| && par[c] == q ==> exists k :: 0 <= k < |r| && r[k].index == c
  {
    var r := NodesAt(s, par, reversed, cs, bound);
    NodesAtPositions(s, par, reversed, cs, bound);
    forall c | bound < c < |s| && par[c] == q
      ensures exists k :: 0 <= k < |r| && r[k].index == c
    {
      var k :| 0 <= k < |cs| && cs[k] == c;
      assert r[k].index == c;
    }
  }

  /**
   * As written, the submenu of the node at position `i` holds the node of
   * every position the lookup gives `i` as parent, each once, in descending
   * position: the reverse of the flat order.
   */
  lemma {:induction false} SubmenuReversesSiblings(s: seq<Item>, i: nat)
    requires i < |s|
    ensures var par := ParentsAsWritten(Depths(s));
      var kids := NodeAt(s, par, true, i).submenu;
      (forall k :: 0 <= k < |kids| ==>
         i < kids[k].index < |s| && par[kids[k].index] == Some(i) && kids[k].fields == s[kids[k].index].data) &&
      (forall c :: i < c < |s| && par[c] == Some(i) ==> exists k :: 0 <= k < |kids| && kids[k].index == c) &&
      (forall k, l :: 0 <= k < l < |kids| ==> kids[k].index > kids[l].index)
  {
    var par := ParentsAsWritten(Depths(s));
    SubmenuEntries(s, par, true, i);
    SubmenuComplete(s, par, true, i);
  }

  /** Corrected, the same submenu lists the children in ascending position. */
  lemma {:induction false} SubmenuKeepsSiblingOrder(s: seq<Item>, i: nat)
    requires i < |s|
    ensures var par := ParentsIntended(Depths(s));
      var kids := NodeAt(s, par, false, i).submenu;
      (forall k :: 0 <= k < |kids| ==>
         i < kids[k].index < |s| && par[kids[k].index] == Some(i) && kids[k].fields == s[kids[k].index].data) &&
      (forall c :: i < c < |s| && par[c] == Some(i) ==> exists k :: 0 <= k < |kids| && kids[k].index == c) &&
      (forall k, l :: 0 <= k < l < |kids| ==> kids[k].index < kids[l].index)
  {
    var par := ParentsIntended(Depths(s));
    SubmenuEntries(s, par, false, i);
    SubmenuComplete(s, par, false, i);
  }
}
