/**
 * Tree to flat list: `add` walks a nested menu document in pre-order and
 * appends one item per node, at the depth it was called with, descending into
 * a non-empty `submenu` one level deeper. `_templateMenu` gives each new item
 * the `link` type when the node carries none, and starts it with every action
 * enabled and both child labels still holding their placeholders.
 */
module Flattening {
  import opened MenuTypes

  /** `if (!data.type) data.type = 'link'`: a missing or empty type becomes `link`. */
  function WithDefaultType(f: Fields): (r: Fields)
    ensures "type" in r && r["type"] != ""
    ensures "type" in f && f["type"] != "" ==> r == f
    ensures !("type" in f && f["type"] != "") ==> r["type"] == DefaultType
    ensures r.Keys == f.Keys + {"type"}
    ensures forall k :: k in f && k != "type" ==> r[k] == f[k]
  {
    if "type" in f && f["type"] != "" then f else f["type" := DefaultType]
  }

  /** The freshly rendered `<li>` for a node at depth `d`. */
  function NewItem(t: MenuNode, d: int): Item {
    Item(WithDefaultType(t.fields), d, false, false, false, false, None, None)
  }

  function FlattenTree(t: MenuNode, d: int): seq<Item>
    decreases t
  {
    match t
    case Leaf(_) => [NewItem(t, d)]
    case Branch(_, sub) => [NewItem(t, d)] + Flatten(sub, d + 1)
  }

  /** The items `add(ts, d)` appends, in order. */
  function Flatten(ts: seq<MenuNode>, d: int): seq<Item>
    decreases ts
  {
    if ts == [] then [] else FlattenTree(ts[0], d) + Flatten(ts[1..], d)
  }

  function TreeSize(t: MenuNode): nat
    decreases t
  {
    match t
    case Leaf(_) => 1
    case Branch(_, sub) => 1 + ForestSize(sub)
  }

  /** Number of nodes in a forest, counting every level. */
  function ForestSize(ts: seq<MenuNode>): nat
    decreases ts
  {
    if ts == [] then 0 else TreeSize(ts[0]) + ForestSize(ts[1..])
  }

  /** One item per node. */
  lemma {:induction false} FlattenLength(ts: seq<MenuNode>, d: int)
    ensures |Flatten(ts, d)| == ForestSize(ts)
    decreases ts, 1
  {
    if ts != [] {
      FlattenTreeLength(ts[0], d);
      FlattenLength(ts[1..], d);
    }
  }

  lemma {:induction false} FlattenTreeLength(t: MenuNode, d: int)
    ensures |FlattenTree(t, d)| == TreeSize(t)
    decreases t, 0
  {
    match t
    case Leaf(_) =>
    case Branch(_, sub) => FlattenLength(sub, d + 1);
  }

  /** Appending two forests appends their flat lists. */
  lemma {:induction false} FlattenAppend(a: seq<MenuNode>, b: seq<MenuNode>, d: int)
    ensures Flatten(a + b, d) == Flatten(a, d) + Flatten(b, d)
    decreases a
  {
    if a == [] {
      assert a + b == b;
    } else {
      assert (a + b)[0] == a[0];
      assert (a + b)[1..] == a[1..] + b;
      FlattenAppend(a[1..], b, d);
    }
  }

  /** A node's children are smaller than the forest it belongs to (the recursion in `add` ends). */
  lemma {:induction false} ChildrenSmaller(ts: seq<MenuNode>, k: nat)
    requires k < |ts|
    ensures ForestSize(Children(ts[k])) < ForestSize(ts)
    decreases ts
  {
    if k > 0 {
      ChildrenSmaller(ts[1..], k - 1);
    }
  }

  /**
   * Pre-order with depths: a tree's first item is its root at depth `d`, and
   * every item of a forest flattened at depth `d` is at depth `d` or deeper.
   */
  lemma {:induction false} FlattenDepthsAtLeast(ts: seq<MenuNode>, d: int)
    ensures forall k :: 0 <= k < |Flatten(ts, d)| ==> Flatten(ts, d)[k].depth >= d
    ensures ts != [] ==> |Flatten(ts, d)| > 0 && Flatten(ts, d)[0] == NewItem(ts[0], d)
    decreases ts, 1
  {
    if ts != [] {
      FlattenTreeDepthsAtLeast(ts[0], d);
      FlattenDepthsAtLeast(ts[1..], d);
    }
  }

  lemma {:induction false} FlattenTreeDepthsAtLeast(t: MenuNode, d: int)
    ensures FlattenTree(t, d)[0] == NewItem(t, d)
    ensures forall k :: 0 < k < |FlattenTree(t, d)| ==> FlattenTree(t, d)[k].depth > d
    decreases t, 0
  {
    match t
    case Leaf(_) =>
    case Branch(_, sub) => FlattenDepthsAtLeast(sub, d + 1);
  }
}
