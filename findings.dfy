/**
 * Two small documents on which reading back a freshly loaded menu goes wrong
 * as the editor is written, and two small lists on which the reconcile pass
 * offers the wrong buttons, each next to what the corrected code gives.
 */
module Findings {
  import opened MenuTypes
  import opened Flattening
  import opened Collect
  import Restructure
  import Actions

  /** A node's data: a title and, once the editor has filled it in, the `link` type. */
  function Titled(title: string): Fields {
    map["title" := title]
  }

  function Typed(title: string): Fields {
    map["title" := title, "type" := DefaultType]
  }

  /** Menu A with the two children B and C, in that order. */
  function TwoChildren(): seq<MenuNode> {
    [Branch(Titled("A"), [Leaf(Titled("B")), Leaf(Titled("C"))])]
  }

  /** Menu A with children B (itself holding C) and D. */
  function GrandchildThenChild(): seq<MenuNode> {
    [Branch(Titled("A"), [Branch(Titled("B"), [Leaf(Titled("C"))]), Leaf(Titled("D"))])]
  }

  /** Read back as written, A's children come out as C then B; corrected, as B then C. */
  lemma {:induction false} SiblingsComeBackReversed()
    ensures CollectAsWritten(Flatten(TwoChildren(), 0)) ==
      Collected([Branch(Typed("A"), [Leaf(Typed("C")), Leaf(Typed("B"))])])
    ensures CollectIntended(Flatten(TwoChildren(), 0)) ==
      Collected([Branch(Typed("A"), [Leaf(Typed("B")), Leaf(Typed("C"))])])
  {
    var s := Flatten(TwoChildren(), 0);
    FlatTwoChildren();
    CollectSiblings(s);
  }

  /**
   * The flat depths are 0, 1, 2, 1: read back as written D lands under C, one
   * level too deep; corrected, D is A's second child.
   */
  lemma {:induction false} SiblingAfterGrandchildSinks()
    ensures CollectAsWritten(Flatten(GrandchildThenChild(), 0)) ==
      Collected([Branch(Typed("A"), [Branch(Typed("B"), [Branch(Typed("C"), [Leaf(Typed("D"))])])])])
    ensures CollectIntended(Flatten(GrandchildThenChild(), 0)) ==
      Collected([Branch(Typed("A"), [Branch(Typed("B"), [Leaf(Typed("C"))]), Leaf(Typed("D"))])])
  {
    var s := Flatten(GrandchildThenChild(), 0);
    FlatGrandchildThenChild();
    CollectDeeperPredecessor(s);
  }

  /** Filling in the default type turns a titled node into a typed one. */
  lemma {:induction false} TypedTitle(title: string)
    ensures NewItem(Leaf(Titled(title)), 0).data == Typed(title)
  {
    assert "type" !in Titled(title);
    assert Titled(title)["type" := DefaultType] == Typed(title);
  }

  /** The items of a node carry its typed data, whatever its children and depth. */
  lemma {:induction false} NewItemData(title: string, t: MenuNode, d: int)
    requires t.fields == Titled(title)
    ensures NewItem(t, d).data == Typed(title) && NewItem(t, d).depth == d
  {
    TypedTitle(title);
  }

  lemma {:induction false} FlattenLeaves(b: MenuNode, c: MenuNode, d: int)
    requires b.Leaf? && c.Leaf?
    ensures Flatten([b, c], d) == [NewItem(b, d), NewItem(c, d)]
  {
    assert [b, c][1..] == [c];
    assert [c][1..] == [];
    assert Flatten([c], d) == [NewItem(c, d)] + Flatten([], d);
  }

  lemma {:induction false} FlatTwoChildren()
    ensures var s := Flatten(TwoChildren(), 0);
      Depths(s) == [0, 1, 1] && s[0].data == Typed("A") && s[1].data == Typed("B") && s[2].data == Typed("C")
  {
    var doc := TwoChildren();
    var a, b, c := doc[0], Leaf(Titled("B")), Leaf(Titled("C"));
    FlattenLeaves(b, c, 1);
    assert doc[1..] == [];
    assert Flatten(doc, 0) == FlattenTree(a, 0) + Flatten([], 0);
    assert Flatten(doc, 0) == [NewItem(a, 0), NewItem(b, 1), NewItem(c, 1)];
    NewItemData("A", a, 0);
    NewItemData("B", b, 1);
    NewItemData("C", c, 1);
  }

  lemma {:induction false} FlattenGrandchild(b: MenuNode, c: MenuNode, d: MenuNode)
    requires b.Branch? && b.submenu == [c] && c.Leaf? && d.Leaf?
    ensures Flatten([b, d], 1) == [NewItem(b, 1), NewItem(c, 2), NewItem(d, 1)]
  {
    assert [b, d][1..] == [d];
    assert [c][1..] == [];
    assert [d][1..] == [];
    assert Flatten([c], 2) == [NewItem(c, 2)] + Flatten([], 2);
    assert FlattenTree(b, 1) == [NewItem(b, 1), NewItem(c, 2)];
    assert Flatten([d], 1) == [NewItem(d, 1)] + Flatten([], 1);
  }

  lemma {:induction false} FlatGrandchildThenChild()
    ensures var s := Flatten(GrandchildThenChild(), 0);
      Depths(s) == [0, 1, 2, 1] && s[0].data == Typed("A") && s[1].data == Typed("B") &&
      s[2].data == Typed("C") && s[3].data == Typed("D")
  {
    var doc := GrandchildThenChild();
    var c, d := Leaf(Titled("C")), Leaf(Titled("D"));
    var b := Branch(Titled("B"), [c]);
    var a := doc[0];
    FlattenGrandchild(b, c, d);
    assert doc[1..] == [];
    assert Flatten(doc, 0) == FlattenTree(a, 0) + Flatten([], 0);
    assert Flatten(doc, 0) == [NewItem(a, 0), NewItem(b, 1), NewItem(c, 2), NewItem(d, 1)];
    NewItemData("A", a, 0);
    NewItemData("B", b, 1);
    NewItemData("C", c, 2);
    NewItemData("D", d, 1);
  }

  /** Both lookups give items 1 and 2 of depths 0, 1, 1 the parent 0. */
  lemma {:induction false} SiblingParents()
    ensures ParentsAsWritten([0, 1, 1]) == ParentsIntended([0, 1, 1]) == [None, Some(0), Some(0)]
  {
  }

  /** Three items at depths 0, 1, 1 come back as one menu with two children, in the order each reading uses. */
  lemma {:induction false} CollectSiblings(s: seq<Item>)
    requires |s| == 3 && Depths(s) == [0, 1, 1]
    ensures CollectAsWritten(s) == Collected([Branch(s[0].data, [Leaf(s[2].data), Leaf(s[1].data)])])
    ensures CollectIntended(s) == Collected([Branch(s[0].data, [Leaf(s[1].data), Leaf(s[2].data)])])
  {
    SiblingParents();
    SiblingsWith(s, ParentsAsWritten(Depths(s)), true);
    SiblingsWith(s, ParentsIntended(Depths(s)), false);
  }

  lemma {:induction false} SiblingsWith(s: seq<Item>, par: seq<Option<nat>>, reversed: bool)
    requires |s| == 3 && Depths(s) == [0, 1, 1] && par == [None, Some(0), Some(0)]
    ensures CollectWith(s, par, reversed) ==
      Collected([Branch(s[0].data, if reversed then [Leaf(s[2].data), Leaf(s[1].data)] else [Leaf(s[1].data), Leaf(s[2].data)])])
  {
    assert FirstOrphan(Depths(s), par, 0) == None;
    SiblingTable(par);
    var nb := Pending(s[1].data, 1, []);
    var nc := Pending(s[2].data, 2, []);
    assert NodeAt(s, par, reversed, 1) == nb && NodeAt(s, par, reversed, 2) == nc;
    var kids := if reversed then [nc, nb] else [nb, nc];
    assert Ordered([1, 2], reversed) == if reversed then [2, 1] else [1, 2];
    if reversed {
      NodesAtTwo(s, par, reversed, 2, 1, 0);
      CleanedTwo(nc, nb);
    } else {
      NodesAtTwo(s, par, reversed, 1, 2, 0);
      CleanedTwo(nb, nc);
    }
    var top := Pending(s[0].data, 0, kids);
    assert NodeAt(s, par, reversed, 0) == top;
    NodesAtOne(s, par, reversed, 0, -1);
    CleanedOne(top);
  }

  /** For depths 0, 1, 2, 1 the last item's parent is item 2 as written, item 0 corrected. */
  lemma {:induction false} DeeperPredecessorParents()
    ensures ParentsAsWritten([0, 1, 2, 1]) == [None, Some(0), Some(1), Some(2)]
    ensures ParentsIntended([0, 1, 2, 1]) == [None, Some(0), Some(1), Some(0)]
  {
  }

  /** Four items at depths 0, 1, 2, 1: a chain as written, a menu with two children corrected. */
  lemma {:induction false} CollectDeeperPredecessor(s: seq<Item>)
    requires |s| == 4 && Depths(s) == [0, 1, 2, 1]
    ensures CollectAsWritten(s) ==
      Collected([Branch(s[0].data, [Branch(s[1].data, [Branch(s[2].data, [Leaf(s[3].data)])])])])
    ensures CollectIntended(s) ==
      Collected([Branch(s[0].data, [Branch(s[1].data, [Leaf(s[2].data)]), Leaf(s[3].data)])])
  {
    DeeperPredecessorParents();
    ChainAsWritten(s);
    TwoChildrenIntended(s);
  }

  lemma {:induction false} ChainAsWritten(s: seq<Item>)
    requires |s| == 4 && Depths(s) == [0, 1, 2, 1]
    requires ParentsAsWritten(Depths(s)) == [None, Some(0), Some(1), Some(2)]
    ensures CollectAsWritten(s) ==
      Collected([Branch(s[0].data, [Branch(s[1].data, [Branch(s[2].data, [Leaf(s[3].data)])])])])
  {
    var par := ParentsAsWritten(Depths(s));
    assert FirstOrphan(Depths(s), par, 0) == None;
    ChainTable(par);
    var nd := Pending(s[3].data, 3, []);
    var nc := Pending(s[2].data, 2, [nd]);
    var nb := Pending(s[1].data, 1, [nc]);
    var na := Pending(s[0].data, 0, [nb]);
    assert NodeAt(s, par, true, 3) == nd;
    NodesAtOne(s, par, true, 3, 2);
    assert NodeAt(s, par, true, 2) == nc;
    NodesAtOne(s, par, true, 2, 1);
    assert NodeAt(s, par, true, 1) == nb;
    NodesAtOne(s, par, true, 1, 0);
    assert NodeAt(s, par, true, 0) == na;
    NodesAtOne(s, par, true, 0, -1);
    CleanedOne(nd);
    CleanedOne(nc);
    CleanedOne(nb);
    CleanedOne(na);
  }

  lemma {:induction false} TwoChildrenIntended(s: seq<Item>)
    requires |s| == 4 && Depths(s) == [0, 1, 2, 1]
    requires ParentsIntended(Depths(s)) == [None, Some(0), Some(1), Some(0)]
    ensures CollectIntended(s) ==
      Collected([Branch(s[0].data, [Branch(s[1].data, [Leaf(s[2].data)]), Leaf(s[3].data)])])
  {
    var par := ParentsIntended(Depths(s));
    assert FirstOrphan(Depths(s), par, 0) == None;
    ForkTable(par);
    var nd := Pending(s[3].data, 3, []);
    var nc := Pending(s[2].data, 2, []);
    var nb := Pending(s[1].data, 1, [nc]);
    var na := Pending(s[0].data, 0, [nb, nd]);
    assert NodeAt(s, par, false, 3) == nd;
    assert NodeAt(s, par, false, 2) == nc;
    NodesAtOne(s, par, false, 2, 1);
    assert NodeAt(s, par, false, 1) == nb;
    NodesAtTwo(s, par, false, 1, 3, 0);
    assert NodeAt(s, par, false, 0) == na;
    NodesAtOne(s, par, false, 0, -1);
    CleanedOne(nc);
    CleanedTwo(nb, nd);
    CleanedOne(na);
  }

  /** Position `k` when its parent is `q`, as a list of at most one position. */
  function Here(par: seq<Option<nat>>, q: Option<nat>, k: nat): (r: seq<nat>)
    requires k < |par|
    ensures r == [] || r == [k]
    ensures par[k] == q <==> r == [k]
  {
    if par[k] == q then [k] else []
  }

  lemma {:induction false} HereStep(par: seq<Option<nat>>, q: Option<nat>, lo: nat)
    requires lo < |par|
    ensures WithParent(par, q, lo) == Here(par, q, lo) + WithParent(par, q, lo + 1)
  {
    WithParentStep(par, q, lo);
    if par[lo] != q {
      assert Here(par, q, lo) + WithParent(par, q, lo + 1) == WithParent(par, q, lo + 1);
    }
  }

  /** The positions of a three-item table whose parent is `q`, from each start on. */
  lemma {:induction false} ChildrenOfThree(par: seq<Option<nat>>, q: Option<nat>)
    requires |par| == 3
    ensures WithParent(par, q, 2) == Here(par, q, 2)
    ensures WithParent(par, q, 1) == Here(par, q, 1) + Here(par, q, 2)
    ensures WithParent(par, q, 0) == Here(par, q, 0) + (Here(par, q, 1) + Here(par, q, 2))
  {
    HereStep(par, q, 2);
    assert WithParent(par, q, 3) == [];
    assert Here(par, q, 2) + [] == Here(par, q, 2);
    HereStep(par, q, 1);
    HereStep(par, q, 0);
  }

  /** The positions of a four-item table whose parent is `q`, from each start on. */
  lemma {:induction false} ChildrenOfFour(par: seq<Option<nat>>, q: Option<nat>)
    requires |par| == 4
    ensures WithParent(par, q, 3) == Here(par, q, 3)
    ensures WithParent(par, q, 2) == Here(par, q, 2) + Here(par, q, 3)
    ensures WithParent(par, q, 1) == Here(par, q, 1) + (Here(par, q, 2) + Here(par, q, 3))
    ensures WithParent(par, q, 0) == Here(par, q, 0) + (Here(par, q, 1) + (Here(par, q, 2) + Here(par, q, 3)))
  {
    HereStep(par, q, 3);
    assert WithParent(par, q, 4) == [];
    assert Here(par, q, 3) + [] == Here(par, q, 3);
    HereStep(par, q, 2);
    HereStep(par, q, 1);
    HereStep(par, q, 0);
  }

  /** The child lists of the table [none, 0, 0]. */
  lemma {:induction false} SiblingTable(par: seq<Option<nat>>)
    requires |par| == 3 && par[0] == None && par[1] == Some(0) && par[2] == Some(0)
    ensures WithParent(par, None, 0) == [0] && WithParent(par, Some(0), 1) == [1, 2]
    ensures WithParent(par, Some(1), 2) == [] && WithParent(par, Some(2), 3) == []
  {
    ChildrenOfThree(par, None);
    ChildrenOfThree(par, Some(0));
    ChildrenOfThree(par, Some(1));
  }

  /** The child lists of the table [none, 0, 1, 2]. */
  lemma {:induction false} ChainTable(par: seq<Option<nat>>)
    requires |par| == 4 && par[0] == None && par[1] == Some(0) && par[2] == Some(1) && par[3] == Some(2)
    ensures WithParent(par, None, 0) == [0] && WithParent(par, Some(0), 1) == [1]
    ensures WithParent(par, Some(1), 2) == [2] && WithParent(par, Some(2), 3) == [3]
    ensures WithParent(par, Some(3), 4) == []
  {
    ChildrenOfFour(par, None);
    ChildrenOfFour(par, Some(0));
    ChildrenOfFour(par, Some(1));
    ChildrenOfFour(par, Some(2));
  }

  /** The child lists of the table [none, 0, 1, 0]. */
  lemma {:induction false} ForkTable(par: seq<Option<nat>>)
    requires |par| == 4 && par[0] == None && par[1] == Some(0) && par[2] == Some(1) && par[3] == Some(0)
    ensures WithParent(par, None, 0) == [0] && WithParent(par, Some(0), 1) == [1, 3]
    ensures WithParent(par, Some(1), 2) == [2] && WithParent(par, Some(2), 3) == []
    ensures WithParent(par, Some(3), 4) == []
  {
    ChildrenOfFour(par, None);
    ChildrenOfFour(par, Some(0));
    ChildrenOfFour(par, Some(1));
    ChildrenOfFour(par, Some(2));
  }

  lemma {:induction false} NodesAtOne(s: seq<Item>, par: seq<Option<nat>>, reversed: bool, x: nat, bound: int)
    requires |par| == |s| && -1 <= bound < x < |s|
    ensures NodesAt(s, par, reversed, [x], bound) == [NodeAt(s, par, reversed, x)]
  {
    assert [x][1..] == [];
  }

  lemma {:induction false} NodesAtTwo(s: seq<Item>, par: seq<Option<nat>>, reversed: bool, x: nat, y: nat, bound: int)
    requires |par| == |s| && -1 <= bound < x < |s| && bound < y < |s|
    ensures NodesAt(s, par, reversed, [x, y], bound) == [NodeAt(s, par, reversed, x), NodeAt(s, par, reversed, y)]
  {
    assert [x, y][1..] == [y];
    NodesAtOne(s, par, reversed, y, bound);
  }

  lemma {:induction false} CleanedOne(p: Pending)
    ensures Cleaned([p]) == [CleanedNode(p)]
  {
    assert [p][1..] == [];
  }

  lemma {:induction false} CleanedTwo(p: Pending, q: Pending)
    ensures Cleaned([p, q]) == [CleanedNode(p), CleanedNode(q)]
  {
    assert [p, q][1..] == [q];
    CleanedOne(q);
  }

  /**
   * At `max_depth` 0, of two top-level items the second is offered child-in,
   * because the top-level rule never looks at `max_depth`; pressing it and
   * reconciling leaves that item at depth 1. Corrected, the button is hidden.
   */
  lemma {:induction false} TopLevelChildInIgnoresMaxDepth(it: Item)
    requires it.depth == 0
    ensures var s := Restructure.Reconciled([it, it], 0);
      Restructure.Reconciled(s, 0) == s && Actions.DepthsWithin(s, 0) &&
      Actions.Offered(s[1], Actions.ChildIn) &&
      !Actions.DepthsWithin(Restructure.Reconciled(Actions.Applied(s, 1, Actions.ChildIn).value, 0), 0)
    ensures !Restructure.ReconciledIntended([it, it], 0)[1].childInShown
  {
    var ds := Restructure.ZeroFirst(Depths([it, it]));
    assert ds == [0, 0];
    var s := Restructure.Reconciled([it, it], 0);
    assert s[1] == Restructure.RestructuredItem(ds, 1, it, 0);
    assert Restructure.UnderTarget(ds, 1) == Some(0);
    Restructure.ReconcileIdempotent([it, it], 0);
    Restructure.ReconcileFirstItem([it, it], 0);
    var t := Actions.Applied(s, 1, Actions.ChildIn).value;
    assert t[1].depth == 1;
    Restructure.ReconcileKeepsItems(t, 0);
    assert Restructure.Reconciled(t, 0)[1].depth == Depths(Restructure.Reconciled(t, 0))[1];
    assert Restructure.ReconciledIntended([it, it], 0)[1] == Restructure.RestructuredItemIntended(ds, 1, it, 0);
  }

  /**
   * Moving the second of two items up makes it first, yet as written it keeps
   * the move-down flag it had as the last item, so it cannot be moved back
   * down. Corrected, it can, and the item now last cannot.
   */
  lemma {:induction false} FirstItemKeepsDownDisabled(a: Item, b: Item, maxDepth: int)
    ensures var s := Restructure.Reconciled([a, b], maxDepth);
      var t := Restructure.Reconciled(Actions.Applied(s, 1, Actions.Up).value, maxDepth);
      Actions.Offered(s[1], Actions.Up) && |t| == 2 && t[0].data == b.data && t[0].downDisabled
    ensures var s := Restructure.ReconciledIntended([a, b], maxDepth);
      var t := Restructure.ReconciledIntended(Actions.Applied(s, 1, Actions.Up).value, maxDepth);
      Actions.Offered(s[1], Actions.Up) && |t| == 2 && t[0].data == b.data &&
      !t[0].downDisabled && t[1].downDisabled
  {
    var s := Restructure.Reconciled([a, b], maxDepth);
    Restructure.ReconcileMoveFlags([a, b], maxDepth, 1);
    Restructure.ReconcileKeepsItems([a, b], maxDepth);
    var u := Actions.Applied(s, 1, Actions.Up).value;
    assert u == [s[1], s[0]];
    Restructure.ReconcileFirstItem(u, maxDepth);
    var si := Restructure.ReconciledIntended([a, b], maxDepth);
    Restructure.ReconcileIntendedMoveFlags([a, b], maxDepth, 1);
    var ui := Actions.Applied(si, 1, Actions.Up).value;
    assert ui == [si[1], si[0]];
    Restructure.ReconcileIntendedMoveFlags(ui, maxDepth, 0);
    Restructure.ReconcileIntendedMoveFlags(ui, maxDepth, 1);
  }
}
