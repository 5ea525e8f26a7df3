/**
 * Loading a document and reading it back. With the corrected parent lookup
 * and sibling order, `data()` after `add` returns the document it was given,
 * up to the two normalisations the editor performs on the way: every node
 * gets the `link` type when it has none, and an empty `submenu` is dropped.
 * This holds while the whole list fits in the lookup's window of
 * `MaxStep` positions, so that every predecessor of an item is inspected.
 */
module RoundTrip {
  import opened MenuTypes
  import opened ParentLookup
  import opened Flattening
  import opened Collect
  import opened Restructure

  /** A node as the editor hands it back: default type filled in, no empty `submenu`. */
  function NormalizedTree(t: MenuNode): MenuNode
    decreases t
  {
    match t
    case Leaf(f) => Leaf(WithDefaultType(f))
    case Branch(f, sub) => if sub == [] then Leaf(WithDefaultType(f)) else Branch(WithDefaultType(f), Normalized(sub))
  }

  function Normalized(ts: seq<MenuNode>): (r: seq<MenuNode>)
    decreases ts
    ensures |r| == |ts|
  {
    if ts == [] then [] else [NormalizedTree(ts[0])] + Normalized(ts[1..])
  }

  /** The positions, in a flat list, of the top-level nodes of a forest flattened from position `a`. */
  function Tops(ts: seq<MenuNode>, a: nat): seq<nat>
    decreases ts
  {
    if ts == [] then [] else [a] + Tops(ts[1..], a + TreeSize(ts[0]))
  }

  /**
   * A tree flattened at depth `d` sits in `s` from position `o` on, followed
   * by the end of the list or an item no deeper than `d`.
   */
  predicate TreeLaid(s: seq<Item>, t: MenuNode, d: int, o: nat) {
    Placed(s, FlattenTree(t, d), o) &&
    (o + TreeSize(t) == |s| || (o + TreeSize(t) < |s| && s[o + TreeSize(t)].depth <= d))
  }

  /**
   * A forest flattened at depth `d` sits in `s` from position `a` on, followed
   * by the end of the list or an item shallower than `d`.
   */
  predicate ForestLaid(s: seq<Item>, ts: seq<MenuNode>, d: int, a: nat) {
    Placed(s, Flatten(ts, d), a) &&
    (a + ForestSize(ts) == |s| || (a + ForestSize(ts) < |s| && s[a + ForestSize(ts)].depth < d))
  }

  /** `f` sits in `s` from position `a` on. */
  predicate Placed(s: seq<Item>, f: seq<Item>, a: nat) {
    a + |f| <= |s| && forall j {:trigger f[j]} :: 0 <= j < |f| ==> s[a + j] == f[j]
  }

  /** The top-level positions of a forest placed from `a` increase and stay inside its segment. */
  lemma {:induction false} TopsWithin(ts: seq<MenuNode>, a: nat)
    ensures var tops := Tops(ts, a);
      |tops| == |ts| &&
      (ts != [] ==> tops[0] == a) &&
      (forall k :: 0 <= k < |tops| ==> a <= tops[k] < a + ForestSize(ts)) &&
      (forall k, l :: 0 <= k < l < |tops| ==> tops[k] < tops[l])
    decreases ts
  {
    if ts != [] {
      TopsWithin(ts[1..], a + TreeSize(ts[0]));
      var tops := Tops(ts, a);
      var rest := Tops(ts[1..], a + TreeSize(ts[0]));
      assert tops == [a] + rest;
      assert forall k :: 0 < k < |tops| ==> tops[k] == rest[k - 1];
    }
  }

  /**
   * In a forest flattened at depth `d` from position `a`, the top-level nodes
   * are exactly the segment's items of depth `d`.
   */
  lemma {:induction false} TopsAreShallowest(ts: seq<MenuNode>, d: int, a: nat)
    ensures |Flatten(ts, d)| == ForestSize(ts)
    ensures forall j :: 0 <= j < ForestSize(ts) ==> (Flatten(ts, d)[j].depth == d <==> a + j in Tops(ts, a))
    decreases ts
  {
    FlattenLength(ts, d);
    if ts != [] {
      var a' := a + TreeSize(ts[0]);
      TopsAreShallowest(ts[1..], d, a');
      forall j | 0 <= j < ForestSize(ts)
        ensures Flatten(ts, d)[j].depth == d <==> a + j in Tops(ts, a)
      {
        if j < TreeSize(ts[0]) {
          ShallowInFirst(ts, d, a, j);
        } else {
          ShallowInRest(ts, d, a, j);
        }
      }
    }
  }

  /** Inside the first tree only its root is at the forest's depth, and only its root is a top. */
  lemma {:induction false} ShallowInFirst(ts: seq<MenuNode>, d: int, a: nat, j: nat)
    requires ts != [] && j < TreeSize(ts[0])
    ensures j < |Flatten(ts, d)| && (Flatten(ts, d)[j].depth == d <==> a + j in Tops(ts, a))
  {
    var a' := a + TreeSize(ts[0]);
    var ft := FlattenTree(ts[0], d);
    var rest := Tops(ts[1..], a');
    FlattenTreeLength(ts[0], d);
    FlattenTreeDepthsAtLeast(ts[0], d);
    TopsWithin(ts[1..], a');
    assert Flatten(ts, d) == ft + Flatten(ts[1..], d);
    assert Flatten(ts, d)[j] == ft[j];
    assert Tops(ts, a) == [a] + rest;
    InCons(a + j, a, rest);
    assert a + j !in rest;
  }

  /** Past the first tree, the forest's items are those of the rest of the forest. */
  lemma {:induction false} ShallowInRest(ts: seq<MenuNode>, d: int, a: nat, j: nat)
    requires ts != [] && TreeSize(ts[0]) <= j < ForestSize(ts)
    requires var a' := a + TreeSize(ts[0]);
      |Flatten(ts[1..], d)| == ForestSize(ts[1..]) &&
      (Flatten(ts[1..], d)[j - TreeSize(ts[0])].depth == d <==> a' + (j - TreeSize(ts[0])) in Tops(ts[1..], a'))
    ensures j < |Flatten(ts, d)| && (Flatten(ts, d)[j].depth == d <==> a + j in Tops(ts, a))
  {
    var a' := a + TreeSize(ts[0]);
    var ft := FlattenTree(ts[0], d);
    var fr := Flatten(ts[1..], d);
    FlattenTreeLength(ts[0], d);
    ShiftedTop(Flatten(ts, d), ft, fr, Tops(ts, a), Tops(ts[1..], a'), a, j, d);
  }

  lemma {:induction false} ShiftedTop(f: seq<Item>, ft: seq<Item>, fr: seq<Item>, tops: seq<nat>, rest: seq<nat>, a: nat, j: nat, d: int)
    requires f == ft + fr && tops == [a] + rest && 1 <= |ft| <= j < |f|
    requires fr[j - |ft|].depth == d <==> a + |ft| + (j - |ft|) in rest
    ensures f[j].depth == d <==> a + j in tops
  {
    assert f[j] == fr[j - |ft|];
    InCons(a + j, a, rest);
  }

  lemma {:induction false} InCons(x: nat, a: nat, rest: seq<nat>)
    ensures x in [a] + rest <==> x == a || x in rest
  {
  }

  /** Such a list is what `WithParent` returns. */
  lemma {:induction false} WithParentExactly(par: seq<Option<nat>>, q: Option<nat>, lo: nat, cs: seq<nat>)
    requires lo <= |par| && ListsChildren(par, q, lo, cs)
    ensures WithParent(par, q, lo) == cs
    decreases |par| - lo
  {
    if lo == |par| {
      IncreasingFits(cs, lo, |par|);
    } else {
      WithParentStep(par, q, lo);
      if par[lo] == q {
        ListsChildrenPastHead(par, q, lo, cs);
        WithParentExactly(par, q, lo + 1, cs[1..]);
        HeadTail(cs);
      } else {
        ListsChildrenPastOther(par, q, lo, cs);
        WithParentExactly(par, q, lo + 1, cs);
      }
    }
  }

  /** A strictly increasing list of values in `[lo, hi)` has at most `hi - lo` entries. */
  lemma {:induction false} IncreasingFits(cs: seq<nat>, lo: int, hi: int)
    requires forall k :: 0 <= k < |cs| ==> lo <= cs[k] < hi
    requires forall k, l :: 0 <= k < l < |cs| ==> cs[k] < cs[l]
    ensures |cs| <= if hi < lo then 0 else hi - lo
    decreases |cs|
  {
    if cs != [] {
      IncreasingFits(cs[1..], cs[0] + 1, hi);
    }
  }

  lemma {:induction false} HeadTail(cs: seq<nat>)
    requires cs != []
    ensures cs == [cs[0]] + cs[1..]
  {
  }

  lemma {:induction false} ListsChildrenPastHead(par: seq<Option<nat>>, q: Option<nat>, lo: nat, cs: seq<nat>)
    requires lo < |par| && par[lo] == q && ListsChildren(par, q, lo, cs)
    ensures cs != [] && cs[0] == lo && ListsChildren(par, q, lo + 1, cs[1..])
  {
    var tail := cs[1..];
    forall c | lo + 1 <= c < |par| && par[c] == q
      ensures c in tail
    {
      var n :| 0 <= n < |cs| && cs[n] == c;
      assert tail[n - 1] == c;
    }
  }

  lemma {:induction false} ListsChildrenPastOther(par: seq<Option<nat>>, q: Option<nat>, lo: nat, cs: seq<nat>)
    requires lo < |par| && par[lo] != q && ListsChildren(par, q, lo, cs)
    ensures ListsChildren(par, q, lo + 1, cs)
  {
  }

  /**
   * With the whole list inside the window, the corrected lookup returns the
   * nearest predecessor of smaller depth.
   */
  lemma {:induction false} NearestShallowerIsParent(ds: seq<int>, c: nat, j: nat)
    requires |ds| <= MaxStep && j < c < |ds| && ds[c] != 0 && ds[j] < ds[c]
    requires forall k :: j < k < c ==> ds[k] >= ds[c]
    ensures ParentOfIntended(ds, c) == Some(j)
  {
    LookupWithinShortPrefix(ds, c, DepthSmaller);
  }

  /**
   * A subtree occupies `(o, e)`, deeper than `o`, and is followed by the end of
   * the list or an item no deeper than `o`: no position from `e` on has `o`
   * as its parent.
   */
  lemma {:induction false} NoParentPastSubtree(ds: seq<int>, o: nat, e: nat)
    requires o < e <= |ds|
    requires forall k :: o < k < e ==> ds[k] > ds[o]
    requires e == |ds| || ds[e] <= ds[o]
    ensures forall c :: e <= c < |ds| ==> ParentOfIntended(ds, c) != Some(o)
  {
  }

  /**
   * In the same situation, the children of `o` are exactly the positions of
   * the subtree one level deeper than `o`, in increasing order.
   */
  lemma {:induction false} ChildrenOneLevelDeeper(ds: seq<int>, o: nat, e: nat, d: int, tops: seq<nat>)
    requires |ds| <= MaxStep && d >= 0 && SpanBelow(ds, o, e, d) && TopsOneDeeper(ds, o, e, d, tops)
    ensures ListsChildren(ParentsIntended(ds), Some(o), o + 1, tops)
  {
    TopsHaveParent(ds, o, e, d, tops);
    OnlyTopsHaveParent(ds, o, e, d, tops);
  }

  lemma {:induction false} TopsHaveParent(ds: seq<int>, o: nat, e: nat, d: int, tops: seq<nat>)
    requires |ds| <= MaxStep && d >= 0 && SpanBelow(ds, o, e, d) && TopsOneDeeper(ds, o, e, d, tops)
    ensures forall k :: 0 <= k < |tops| ==> o + 1 <= tops[k] < |ds| && ParentsIntended(ds)[tops[k]] == Some(o)
  {
    forall k | 0 <= k < |tops|
      ensures ParentOfIntended(ds, tops[k]) == Some(o)
    {
      NearestShallowerIsParent(ds, tops[k], o);
    }
  }

  lemma {:induction false} OnlyTopsHaveParent(ds: seq<int>, o: nat, e: nat, d: int, tops: seq<nat>)
    requires |ds| <= MaxStep && d >= 0 && SpanBelow(ds, o, e, d) && TopsOneDeeper(ds, o, e, d, tops)
    ensures forall c :: o + 1 <= c < |ds| && ParentsIntended(ds)[c] == Some(o) ==> c in tops
  {
    NoParentPastSubtree(ds, o, e);
    forall c | o + 1 <= c < |ds| && ParentOfIntended(ds, c) == Some(o)
      ensures c in tops
    {
      if c > o + 1 {
        assert ds[o + 1] >= ds[c];
      }
    }
  }

  /** Two consecutive pieces of a placed list are placed one after the other. */
  lemma {:induction false} PlacedSplit(s: seq<Item>, f: seq<Item>, g: seq<Item>, a: nat)
    requires Placed(s, f + g, a)
    ensures Placed(s, f, a) && Placed(s, g, a + |f|)
  {
    forall j | 0 <= j < |f| ensures s[a + j] == f[j] {
      assert (f + g)[j] == f[j];
    }
    forall j | 0 <= j < |g| ensures s[a + |f| + j] == g[j] {
      assert s[a + (|f| + j)] == (f + g)[|f| + j];
    }
  }

  /** The depths a placed list puts into `s`. */
  lemma {:induction false} PlacedDepths(s: seq<Item>, f: seq<Item>, a: nat)
    requires Placed(s, f, a)
    ensures forall j :: 0 <= j < |f| ==> Depths(s)[a + j] == f[j].depth
  {
  }

  /** A node without children is cleaned to a leaf carrying its item's data. */
  lemma {:induction false} LeafReadBack(s: seq<Item>, par: seq<Option<nat>>, o: nat)
    requires |par| == |s| && o < |s| && WithParent(par, Some(o), o + 1) == []
    ensures CleanedNode(NodeAt(s, par, false, o)) == Leaf(s[o].data)
  {
    assert NodeAt(s, par, false, o).submenu == [];
  }

  /** A node with children is cleaned to a branch over its cleaned children. */
  lemma {:induction false} BranchReadBack(s: seq<Item>, par: seq<Option<nat>>, o: nat, kids: seq<nat>)
    requires |par| == |s| && o < |s| && WithParent(par, Some(o), o + 1) == kids && kids != []
    ensures CleanedNode(NodeAt(s, par, false, o)) == Branch(s[o].data, Cleaned(NodesAt(s, par, false, kids, o)))
  {
    assert NodeAt(s, par, false, o) == Pending(s[o].data, o, NodesAt(s, par, false, kids, o));
  }

  /**
   * The positions of the forest's top-level nodes, placed from `a`, lie
   * after `b`, and the nodes built there are cleaned back to the forest,
   * normalised.
   */
  predicate ReadsBack(s: seq<Item>, par: seq<Option<nat>>, ts: seq<MenuNode>, a: nat, b: int)
    requires |par| == |s| && -1 <= b
  {
    (forall k :: 0 <= k < |Tops(ts, a)| ==> b < Tops(ts, a)[k] < |s|) &&
    Cleaned(NodesAt(s, par, false, Tops(ts, a), b)) == Normalized(ts)
  }

  /** Reading back a forest: its first tree, then the rest. */
  lemma {:induction false} ForestCons(s: seq<Item>, par: seq<Option<nat>>, ts: seq<MenuNode>, a: nat, b: int)
    requires |par| == |s| && -1 <= b < a < |s| && ts != []
    requires CleanedNode(NodeAt(s, par, false, a)) == NormalizedTree(ts[0])
    requires ReadsBack(s, par, ts[1..], a + TreeSize(ts[0]), b)
    ensures ReadsBack(s, par, ts, a, b)
  {
    var rest := Tops(ts[1..], a + TreeSize(ts[0]));
    var cs := [a] + rest;
    assert Tops(ts, a) == cs;
    assert cs[0] == a && cs[1..] == rest;
    var nodes := NodesAt(s, par, false, cs, b);
    assert nodes == [NodeAt(s, par, false, a)] + NodesAt(s, par, false, rest, b);
    assert nodes[1..] == NodesAt(s, par, false, rest, b);
  }

  /**
   * How the items of a forest placed from `a` are tied together by a parent
   * table: each node's item carries the node's data (with its default type),
   * and the positions the table lists as that item's children are the
   * positions of its children's top-level nodes.
   */
  predicate TreeFits(s: seq<Item>, par: seq<Option<nat>>, t: MenuNode, o: nat)
    requires |par| == |s| && o + TreeSize(t) <= |s|
    decreases t, 0
  {
    match t
    case Leaf(f) => s[o].data == WithDefaultType(f) && WithParent(par, Some(o), o + 1) == []
    case Branch(f, sub) =>
      s[o].data == WithDefaultType(f) && WithParent(par, Some(o), o + 1) == Tops(sub, o + 1) &&
      ForestFits(s, par, sub, o + 1)
  }

  predicate ForestFits(s: seq<Item>, par: seq<Option<nat>>, ts: seq<MenuNode>, a: nat)
    requires |par| == |s| && a + ForestSize(ts) <= |s|
    decreases ts, 1
  {
    ts == [] || (TreeFits(s, par, ts[0], a) && ForestFits(s, par, ts[1..], a + TreeSize(ts[0])))
  }

  /** The three conditions of `TreeFits`, stated without the match on the node. */
  lemma {:induction false} FitsIntro(s: seq<Item>, par: seq<Option<nat>>, t: MenuNode, o: nat)
    requires |par| == |s| && o + TreeSize(t) <= |s|
    requires s[o].data == WithDefaultType(t.fields)
    requires WithParent(par, Some(o), o + 1) == Tops(Children(t), o + 1)
    requires Children(t) != [] ==> ForestFits(s, par, Children(t), o + 1)
    ensures TreeFits(s, par, t, o)
  {
  }

  /** The two conditions of `ForestFits` on a non-empty forest. */
  lemma {:induction false} ForestFitsIntro(s: seq<Item>, par: seq<Option<nat>>, ts: seq<MenuNode>, a: nat)
    requires |par| == |s| && ts != [] && a + ForestSize(ts) <= |s|
    requires a + TreeSize(ts[0]) + ForestSize(ts[1..]) == a + ForestSize(ts)
    requires TreeFits(s, par, ts[0], a) && ForestFits(s, par, ts[1..], a + TreeSize(ts[0]))
    ensures ForestFits(s, par, ts, a)
  {
  }

  /** A tree that fits the parent table is read back as that tree, normalised. */
  lemma {:induction false} TreeReadBack(s: seq<Item>, par: seq<Option<nat>>, t: MenuNode, o: nat)
    requires |par| == |s| && o + TreeSize(t) <= |s| && TreeFits(s, par, t, o)
    ensures o < |s| && CleanedNode(NodeAt(s, par, false, o)) == NormalizedTree(t)
    decreases t, 0
  {
    match t
    case Leaf(f) =>
      LeafReadBack(s, par, o);
    case Branch(f, sub) =>
      if sub == [] {
        LeafReadBack(s, par, o);
      } else {
        ForestReadBack(s, par, sub, o + 1, o);
        BranchReadBack(s, par, o, Tops(sub, o + 1));
      }
  }

  /**
   * A forest that fits the parent table is read back as that forest,
   * normalised, from the positions of its top-level nodes.
   */
  lemma {:induction false} ForestReadBack(s: seq<Item>, par: seq<Option<nat>>, ts: seq<MenuNode>, a: nat, b: int)
    requires |par| == |s| && -1 <= b < a && a + ForestSize(ts) <= |s| && ForestFits(s, par, ts, a)
    ensures ReadsBack(s, par, ts, a, b)
    decreases ts, 1
  {
    if ts == [] {
      TopsWithin(ts, a);
    } else {
      TreeReadBack(s, par, ts[0], a);
      ForestReadBack(s, par, ts[1..], a + TreeSize(ts[0]), b);
      ForestCons(s, par, ts, a, b);
    }
  }

  /**
   * A tree flattened at depth `d >= 0` from position `o`, followed by the end
   * of the list or an item no deeper than `d`, fits a parent table that
   * gives each such subtree's root its one-level-deeper items as children.
   */
  lemma {:induction false} FlattenedTreeFits(s: seq<Item>, par: seq<Option<nat>>, t: MenuNode, d: int, o: nat)
    requires LookupSound(Depths(s), par) && d >= 0
    requires TreeLaid(s, t, d, o)
    ensures o + TreeSize(t) <= |s| && TreeFits(s, par, t, o)
    decreases t, 0
  {
    TreeTable(s, par, t, d, o);
    if Children(t) != [] {
      BranchLaid(s, t, d, o);
      FlattenedForestFits(s, par, Children(t), d + 1, o + 1);
    }
    FitsIntro(s, par, t, o);
  }

  /**
   * A forest flattened at depth `d >= 0` from position `a`, followed by the
   * end of the list or a shallower item, fits such a parent table.
   */
  lemma {:induction false} FlattenedForestFits(s: seq<Item>, par: seq<Option<nat>>, ts: seq<MenuNode>, d: int, a: nat)
    requires LookupSound(Depths(s), par) && d >= 0
    requires ForestLaid(s, ts, d, a)
    ensures a + ForestSize(ts) <= |s| && ForestFits(s, par, ts, a)
    decreases ts, 1
  {
    if ts != [] {
      ForestShape(s, ts, d, a);
      FlattenedTreeFits(s, par, ts[0], d, a);
      FlattenedForestFits(s, par, ts[1..], d, a + TreeSize(ts[0]));
      ForestFitsIntro(s, par, ts, a);
    }
  }

  /**
   * What the read-back needs of a parent table: the root of every subtree
   * (deeper items up to `e`, then the end or an item no deeper) has as its
   * children exactly the subtree's one-level-deeper items, and none when the
   * subtree is the root alone.
   */
  ghost predicate LookupSound(ds: seq<int>, par: seq<Option<nat>>) {
    |par| == |ds| &&
    (forall o: nat, e: nat, d: int, tops: seq<nat> ::
       d >= 0 && SpanBelow(ds, o, e, d) && TopsOneDeeper(ds, o, e, d, tops) ==>
       WithParent(par, Some(o), o + 1) == tops) &&
    (forall o: nat, e: nat, d: int ::
       SpanBelow(ds, o, e, d) && e == o + 1 ==> WithParent(par, Some(o), o + 1) == [])
  }

  /** Within the window, the corrected lookup is such a table. */
  lemma {:induction false} CorrectedLookupSound(ds: seq<int>)
    requires |ds| <= MaxStep
    ensures LookupSound(ds, ParentsIntended(ds))
  {
    forall o: nat, e: nat, d: int, tops: seq<nat> |
      d >= 0 && SpanBelow(ds, o, e, d) && TopsOneDeeper(ds, o, e, d, tops)
      ensures ListsChildren(ParentsIntended(ds), Some(o), o + 1, tops)
    {
      ChildrenOneLevelDeeper(ds, o, e, d, tops);
    }
    forall o: nat, e: nat, d: int | SpanBelow(ds, o, e, d) && e == o + 1
      ensures ListsChildren(ParentsIntended(ds), Some(o), o + 1, [])
    {
      NoChildrenTable(ds, o, d);
    }
    LookupSoundFromLists(ds, ParentsIntended(ds));
  }

  /** A table that lists every such subtree's children is such a table. */
  lemma {:induction false} LookupSoundFromLists(ds: seq<int>, par: seq<Option<nat>>)
    requires |par| == |ds|
    requires forall o: nat, e: nat, d: int, tops: seq<nat> ::
      d >= 0 && SpanBelow(ds, o, e, d) && TopsOneDeeper(ds, o, e, d, tops) ==>
      ListsChildren(par, Some(o), o + 1, tops)
    requires forall o: nat, e: nat, d: int ::
      SpanBelow(ds, o, e, d) && e == o + 1 ==> ListsChildren(par, Some(o), o + 1, [])
    ensures LookupSound(ds, par)
  {
    TopsFromLists(ds, par);
    LeavesFromLists(ds, par);
  }

  lemma {:induction false} TopsFromLists(ds: seq<int>, par: seq<Option<nat>>)
    requires |par| == |ds|
    requires forall o: nat, e: nat, d: int, tops: seq<nat> ::
      d >= 0 && SpanBelow(ds, o, e, d) && TopsOneDeeper(ds, o, e, d, tops) ==>
      ListsChildren(par, Some(o), o + 1, tops)
    ensures forall o: nat, e: nat, d: int, tops: seq<nat> ::
      d >= 0 && SpanBelow(ds, o, e, d) && TopsOneDeeper(ds, o, e, d, tops) ==>
      WithParent(par, Some(o), o + 1) == tops
  {
    forall o: nat, e: nat, d: int, tops: seq<nat> |
      d >= 0 && SpanBelow(ds, o, e, d) && TopsOneDeeper(ds, o, e, d, tops)
      ensures WithParent(par, Some(o), o + 1) == tops
    {
      TopsFromList(ds, par, o, e, d, tops);
    }
  }

  lemma {:induction false} TopsFromList(ds: seq<int>, par: seq<Option<nat>>, o: nat, e: nat, d: int, tops: seq<nat>)
    requires |par| == |ds| && SpanBelow(ds, o, e, d)
    requires ListsChildren(par, Some(o), o + 1, tops)
    ensures WithParent(par, Some(o), o + 1) == tops
  {
    WithParentExactly(par, Some(o), o + 1, tops);
  }

  lemma {:induction false} LeavesFromLists(ds: seq<int>, par: seq<Option<nat>>)
    requires |par| == |ds|
    requires forall o: nat, e: nat, d: int ::
      SpanBelow(ds, o, e, d) && e == o + 1 ==> ListsChildren(par, Some(o), o + 1, [])
    ensures forall o: nat, e: nat, d: int ::
      SpanBelow(ds, o, e, d) && e == o + 1 ==> WithParent(par, Some(o), o + 1) == []
  {
    forall o: nat, e: nat, d: int | SpanBelow(ds, o, e, d) && e == o + 1
      ensures WithParent(par, Some(o), o + 1) == []
    {
      TopsFromList(ds, par, o, e, d, []);
    }
  }

  /**
   * The positions after `o` up to `e` are deeper than `o`'s depth `d`, and
   * the segment ends the list or is followed by an item no deeper than `d`.
   */
  predicate SpanBelow(ds: seq<int>, o: nat, e: nat, d: int) {
    o < e <= |ds| && ds[o] == d &&
    (forall k :: o < k < e ==> ds[k] > d) &&
    (e == |ds| || ds[e] <= d)
  }

  /**
   * `tops` lists, in increasing order, the positions after `o` up to `e` at
   * depth `d + 1`, and the first of them follows `o` directly.
   */
  predicate TopsOneDeeper(ds: seq<int>, o: nat, e: nat, d: int, tops: seq<nat>) {
    o + 1 < e <= |ds| && ds[o + 1] == d + 1 &&
    (forall k :: 0 <= k < |tops| ==> o < tops[k] < e) &&
    (forall k, l :: 0 <= k < l < |tops| ==> tops[k] < tops[l]) &&
    (forall c :: o < c < e ==> (ds[c] == d + 1 <==> c in tops))
  }

  /** An item followed by the end of the list or an item no deeper has no children. */
  lemma {:induction false} NoChildrenTable(ds: seq<int>, o: nat, d: int)
    requires SpanBelow(ds, o, o + 1, d)
    ensures ListsChildren(ParentsIntended(ds), Some(o), o + 1, [])
  {
    NoParentPastSubtree(ds, o, o + 1);
  }

  /**
   * Such a table gives the root of a flattened tree exactly the positions
   * of its children's top-level nodes as children.
   */
  lemma {:induction false} TreeTable(s: seq<Item>, par: seq<Option<nat>>, t: MenuNode, d: int, o: nat)
    requires LookupSound(Depths(s), par) && d >= 0
    requires TreeLaid(s, t, d, o)
    ensures o + TreeSize(t) <= |s| && s[o].data == WithDefaultType(t.fields)
    ensures WithParent(par, Some(o), o + 1) == Tops(Children(t), o + 1)
  {
    TreeDepths(s, t, d, o);
    if Children(t) != [] {
      BranchDepths(s, t, d, o);
    }
  }

  /**
   * How a flattened tree sits in the list: its root item carries the node's
   * data at depth `d`, the rest of the tree is deeper, and what follows is
   * no deeper.
   */
  lemma {:induction false} TreeDepths(s: seq<Item>, t: MenuNode, d: int, o: nat)
    requires TreeLaid(s, t, d, o)
    ensures o + TreeSize(t) <= |s| && s[o].data == WithDefaultType(t.fields)
    ensures SpanBelow(Depths(s), o, o + TreeSize(t), d)
  {
    var ds := Depths(s);
    var f := FlattenTree(t, d);
    FlattenTreeLength(t, d);
    FlattenTreeDepthsAtLeast(t, d);
    PlacedDepths(s, f, o);
    assert s[o + 0] == f[0];
    forall k | o < k < o + TreeSize(t) ensures ds[k] > d {
      assert ds[o + (k - o)] == f[k - o].depth;
    }
  }

  /** The children's forest of a flattened branch follows its root, one level deeper. */
  lemma {:induction false} BranchLaid(s: seq<Item>, t: MenuNode, d: int, o: nat)
    requires Children(t) != [] && TreeLaid(s, t, d, o)
    ensures var sub := Children(t);
      o + 1 + ForestSize(sub) == o + TreeSize(t) && ForestLaid(s, sub, d + 1, o + 1)
  {
    var sub := Children(t);
    var fs := Flatten(sub, d + 1);
    FlattenTreeLength(t, d);
    assert FlattenTree(t, d) == [NewItem(t, d)] + fs;
    PlacedSplit(s, [NewItem(t, d)], fs, o);
  }

  /**
   * The top-level nodes of a flattened branch's children are exactly the
   * items of the subtree at depth `d + 1`.
   */
  lemma {:induction false} BranchDepths(s: seq<Item>, t: MenuNode, d: int, o: nat)
    requires Children(t) != [] && TreeLaid(s, t, d, o)
    ensures TopsOneDeeper(Depths(s), o, o + TreeSize(t), d, Tops(Children(t), o + 1))
  {
    var sub := Children(t);
    var fs := Flatten(sub, d + 1);
    BranchLaid(s, t, d, o);
    TopsAreShallowest(sub, d + 1, o + 1);
    TopsWithin(sub, o + 1);
    PlacedDepths(s, fs, o + 1);
    DeeperTops(Depths(s), fs, o, d, Tops(sub, o + 1));
  }

  /**
   * The depths `fs` puts right after `o`, with `tops` marking its items at
   * depth `d + 1`, make `tops` the one-level-deeper positions of that segment.
   */
  lemma {:induction false} DeeperTops(ds: seq<int>, fs: seq<Item>, o: nat, d: int, tops: seq<nat>)
    requires fs != [] && o + 1 + |fs| <= |ds|
    requires forall j :: 0 <= j < |fs| ==> ds[o + 1 + j] == fs[j].depth
    requires forall j :: 0 <= j < |fs| ==> (fs[j].depth == d + 1 <==> o + 1 + j in tops)
    requires forall k :: 0 <= k < |tops| ==> o + 1 <= tops[k] < o + 1 + |fs|
    requires forall k, l :: 0 <= k < l < |tops| ==> tops[k] < tops[l]
    requires |tops| > 0 && tops[0] == o + 1
    ensures TopsOneDeeper(ds, o, o + 1 + |fs|, d, tops)
  {
    forall c | o < c < o + 1 + |fs|
      ensures ds[c] == d + 1 <==> c in tops
    {
      assert ds[o + 1 + (c - (o + 1))] == fs[c - (o + 1)].depth;
    }
    assert ds[o + 1 + 0] == fs[0].depth;
  }

  /**
   * How a flattened forest sits in the list: its first tree, followed by an
   * item no deeper than the forest's depth (or the end), then the rest of the
   * forest, followed by what followed the whole forest.
   */
  lemma {:induction false} ForestShape(s: seq<Item>, ts: seq<MenuNode>, d: int, a: nat)
    requires ts != [] && ForestLaid(s, ts, d, a)
    ensures ForestSize(ts) == TreeSize(ts[0]) + ForestSize(ts[1..]) && a + ForestSize(ts) <= |s|
    ensures TreeLaid(s, ts[0], d, a) && ForestLaid(s, ts[1..], d, a + TreeSize(ts[0]))
  {
    var ft := FlattenTree(ts[0], d);
    var fr := Flatten(ts[1..], d);
    FlattenCons(ts, d);
    SplitEnv(s, Flatten(ts, d), ft, fr, a, d);
    TreeLaidIntro(s, ts[0], d, a, ft);
    ForestLaidIntro(s, ts[1..], d, a + |ft|, fr);
  }

  lemma {:induction false} TreeLaidIntro(s: seq<Item>, t: MenuNode, d: int, o: nat, f: seq<Item>)
    requires f == FlattenTree(t, d) && |f| == TreeSize(t) && Placed(s, f, o)
    requires o + |f| == |s| || (o + |f| < |s| && s[o + |f|].depth <= d)
    ensures TreeLaid(s, t, d, o)
  {
  }

  lemma {:induction false} ForestLaidIntro(s: seq<Item>, ts: seq<MenuNode>, d: int, a: nat, f: seq<Item>)
    requires f == Flatten(ts, d) && |f| == ForestSize(ts) && Placed(s, f, a)
    requires a + |f| == |s| || (a + |f| < |s| && s[a + |f|].depth < d)
    ensures ForestLaid(s, ts, d, a)
  {
  }

  /** A non-empty forest flattens to its first tree followed by the rest, which starts at depth `d`. */
  lemma {:induction false} FlattenCons(ts: seq<MenuNode>, d: int)
    requires ts != []
    ensures var ft := FlattenTree(ts[0], d);
      var fr := Flatten(ts[1..], d);
      Flatten(ts, d) == ft + fr && |ft| == TreeSize(ts[0]) && |fr| == ForestSize(ts[1..]) &&
      ForestSize(ts) == TreeSize(ts[0]) + ForestSize(ts[1..]) &&
      (fr != [] ==> fr[0].depth == d)
  {
    FlattenTreeLength(ts[0], d);
    FlattenLength(ts[1..], d);
    if ts[1..] != [] {
      FlattenDepthsAtLeast(ts[1..], d);
    }
  }

  /**
   * Splitting a placed piece whose second part starts at depth `d`: the
   * first part is followed by an item no deeper than `d` or the end, and the
   * second part by what followed the whole.
   */
  lemma {:induction false} SplitEnv(s: seq<Item>, f: seq<Item>, ft: seq<Item>, fr: seq<Item>, a: nat, d: int)
    requires f == ft + fr && Placed(s, f, a)
    requires a + |f| == |s| || (a + |f| < |s| && s[a + |f|].depth < d)
    requires fr != [] ==> fr[0].depth == d
    ensures Placed(s, ft, a) && Placed(s, fr, a + |ft|)
    ensures a + |ft| == |s| || (a + |ft| < |s| && s[a + |ft|].depth <= d)
  {
    PlacedSplit(s, ft, fr, a);
    if fr != [] {
      assert s[a + |ft| + 0] == fr[0];
    }
  }

  /** In a freshly loaded document within the window, every nested item finds a parent. */
  lemma {:induction false} LoadedHasNoOrphan(ts: seq<MenuNode>)
    requires ForestSize(ts) <= MaxStep
    ensures var ds := Depths(Flatten(ts, 0));
      FirstOrphan(ds, ParentsIntended(ds), 0) == None
  {
    var s := Flatten(ts, 0);
    var ds := Depths(s);
    var par := ParentsIntended(ds);
    FlattenLength(ts, 0);
    FlattenDepthsAtLeast(ts, 0);
    // The first item is at depth 0 and every other item inspects it.
    forall c | 0 <= c < |s| && ds[c] != 0 ensures par[c].Some? {
      LookupWithinShortPrefix(ds, c, DepthSmaller);
      assert Accepts(DepthSmaller, ds[0], ds[c]);
    }
  }

  /** The roots the corrected lookup finds in a freshly loaded document are its top-level nodes. */
  lemma {:induction false} LoadedRoots(ts: seq<MenuNode>)
    requires ForestSize(ts) <= MaxStep
    ensures WithParent(ParentsIntended(Depths(Flatten(ts, 0))), None, 0) == Tops(ts, 0)
  {
    var s := Flatten(ts, 0);
    var ds := Depths(s);
    var par := ParentsIntended(ds);
    FlattenLength(ts, 0);
    FlattenDepthsAtLeast(ts, 0);
    TopsAreShallowest(ts, 0, 0);
    TopsWithin(ts, 0);
    var tops := Tops(ts, 0);
    forall k | 0 <= k < |tops| ensures par[tops[k]] == None {
      assert s[0 + tops[k]].depth == 0;
    }
    // An item without a parent is at depth 0, since it inspects the first item.
    forall c | 0 <= c < |par| && par[c] == None ensures c in tops {
      assert ds[0] == 0;
      LookupWithinShortPrefix(ds, c, DepthSmaller);
      assert s[0 + c].depth == 0;
    }
    assert ListsChildren(par, None, 0, tops);
    WithParentExactly(par, None, 0, tops);
  }

  /**
   * Reading back a freshly loaded document of at most `MaxStep` nodes never
   * fails, and gives the document back, normalised.
   */
  lemma {:induction false} LoadThenCollectRoundTrips(ts: seq<MenuNode>)
    requires ForestSize(ts) <= MaxStep
    ensures CollectIntended(Flatten(ts, 0)) == Collected(Normalized(ts))
  {
    var s := Flatten(ts, 0);
    var par := ParentsIntended(Depths(s));
    FlattenLength(ts, 0);
    LoadedHasNoOrphan(ts);
    LoadedRoots(ts);
    assert ForestLaid(s, ts, 0, 0) by {
      assert Placed(s, s, 0);
    }
    CorrectedLookupSound(Depths(s));
    FlattenedForestFits(s, par, ts, 0, 0);
    ForestReadBack(s, par, ts, 0, -1);
  }

  /** The nodes built from a position depend on the items' data only, not on their buttons. */
  lemma {:induction false} SameDataSameNode(s1: seq<Item>, s2: seq<Item>, par: seq<Option<nat>>, reversed: bool, i: nat)
    requires |s1| == |s2| == |par| && i < |s1|
    requires forall k :: 0 <= k < |s1| ==> s1[k].data == s2[k].data
    ensures NodeAt(s1, par, reversed, i) == NodeAt(s2, par, reversed, i)
    decreases |s1| - i, 1, 0
  {
    SameDataSameNodes(s1, s2, par, reversed, Ordered(WithParent(par, Some(i), i + 1), reversed), i);
  }

  lemma {:induction false} SameDataSameNodes(s1: seq<Item>, s2: seq<Item>, par: seq<Option<nat>>, reversed: bool, cs: seq<nat>, bound: int)
    requires |s1| == |s2| == |par| && -1 <= bound
    requires forall k :: 0 <= k < |cs| ==> bound < cs[k] < |s1|
    requires forall k :: 0 <= k < |s1| ==> s1[k].data == s2[k].data
    ensures NodesAt(s1, par, reversed, cs, bound) == NodesAt(s2, par, reversed, cs, bound)
    decreases |s1| - bound, 0, |cs|
  {
    if cs != [] {
      SameDataSameNode(s1, s2, par, reversed, cs[0]);
      SameDataSameNodes(s1, s2, par, reversed, cs[1..], bound);
    }
  }

  /**
   * Reading back does not see the reconcile pass when the first item is
   * already top-level: the pass then changes buttons only.
   */
  lemma {:induction false} CollectIgnoresReconcile(s: seq<Item>, maxDepth: int)
    requires |s| > 0 ==> s[0].depth == 0
    ensures CollectAsWritten(Reconciled(s, maxDepth)) == CollectAsWritten(s)
    ensures CollectIntended(Reconciled(s, maxDepth)) == CollectIntended(s)
  {
    var r := Reconciled(s, maxDepth);
    ReconcileKeepsItems(s, maxDepth);
    assert Depths(r) == Depths(s);
    var ds := Depths(s);
    SameDataSameNodes(r, s, ParentsAsWritten(ds), true, WithParent(ParentsAsWritten(ds), None, 0), -1);
    SameDataSameNodes(r, s, ParentsIntended(ds), false, WithParent(ParentsIntended(ds), None, 0), -1);
  }

  /**
   * An editor built on a document of at most `MaxStep` nodes (the constructor
   * leaves `Reconciled(Flatten(menus, 0), max_depth)`) reads the document
   * back, normalised, under the corrected reading.
   */
  lemma {:induction false} LoadedEditorReadsBack(ts: seq<MenuNode>, maxDepth: int)
    requires ForestSize(ts) <= MaxStep
    ensures CollectIntended(Reconciled(Flatten(ts, 0), maxDepth)) == Collected(Normalized(ts))
  {
    FlattenDepthsAtLeast(ts, 0);
    CollectIgnoresReconcile(Flatten(ts, 0), maxDepth);
    LoadThenCollectRoundTrips(ts);
  }
}
