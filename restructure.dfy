/**
 * The reconcile pass (`_prepareRestructureMenu` calling `_restructureMenu` on
 * every item in list order), as a function of the list before the pass.
 *
 * The pass changes one depth only: the first item's, which it clears. Every
 * other item keeps its depth and gets its move and child affordances
 * recomputed from its position, its depth, its predecessor's depth and
 * `max_depth`. Because the first item is handled first, all later items see
 * the cleared depth.
 */
module Restructure {
  import opened MenuTypes
  import opened ParentLookup

  /** The depth column once the first item's depth has been cleared. */
  function ZeroFirst(ds: seq<int>): (r: seq<int>)
    ensures |r| == |ds|
    ensures |ds| > 0 ==> r[0] == 0
    ensures forall k :: 0 < k < |ds| ==> r[k] == ds[k]
  {
    if ds == [] then [] else [0] + ds[1..]
  }

  /**
   * What child-in would nest a top-level item at `i` under (`$under_element`):
   * the previous item when it is top-level too, else the previous item's parent.
   */
  function UnderTarget(ds: seq<int>, i: nat): Option<nat>
    requires 0 < i < |ds|
  {
    if ds[i - 1] != ds[i] then ParentOf(ds, i - 1) else Some(i - 1)
  }

  /** `_restructureMenu` for position `i`, given the depths the item sees. */
  function RestructuredItem(ds: seq<int>, i: nat, it: Item, maxDepth: int): Item
    requires i < |ds|
  {
    if i == 0 then
      it.(depth := 0, upDisabled := true, childInShown := false, childOutShown := false)
    else
      var base := it.(upDisabled := false, downDisabled := i == |ds| - 1,
                      childInShown := false, childOutShown := false);
      if ds[i] != 0 then
        var parent := ParentOf(ds, i);
        var withOut := if parent.Some? then base.(childOutShown := true, childOutRef := parent) else base;
        if ds[i - 1] == ds[i] && maxDepth > ds[i] then
          withOut.(childInShown := true, childInRef := Some(i - 1))
        else
          withOut
      else
        var under := UnderTarget(ds, i);
        if under.Some? then base.(childInShown := true, childInRef := under) else base
  }

  /** The list after one full reconcile pass. */
  function Reconciled(s: seq<Item>, maxDepth: int): (r: seq<Item>)
    ensures |r| == |s|
  {
    var ds := ZeroFirst(Depths(s));
    seq(|s|, i requires 0 <= i < |s| => RestructuredItem(ds, i, s[i], maxDepth))
  }

  /** The pass keeps the order and the data, and clears the first depth only. */
  lemma {:induction false} ReconcileKeepsItems(s: seq<Item>, maxDepth: int)
    ensures var r := Reconciled(s, maxDepth);
      Depths(r) == ZeroFirst(Depths(s)) &&
      forall k :: 0 <= k < |s| ==> r[k].data == s[k].data
  {
    var r := Reconciled(s, maxDepth);
    var ds := ZeroFirst(Depths(s));
    forall k | 0 <= k < |s|
      ensures Depths(r)[k] == ds[k] && r[k].data == s[k].data
    {
      assert r[k] == RestructuredItem(ds, k, s[k], maxDepth);
    }
  }

  /**
   * The first item ends at depth 0 with move-up disabled and both child
   * actions hidden; its move-down flag is whatever it was before.
   */
  lemma {:induction false} ReconcileFirstItem(s: seq<Item>, maxDepth: int)
    requires |s| > 0
    ensures var r := Reconciled(s, maxDepth);
      r[0].depth == 0 && r[0].upDisabled && !r[0].childInShown && !r[0].childOutShown &&
      r[0].downDisabled == s[0].downDisabled && r[0].data == s[0].data
  {
    assert Reconciled(s, maxDepth)[0] == RestructuredItem(ZeroFirst(Depths(s)), 0, s[0], maxDepth);
  }

  /** Every later item can move up, and can move down exactly when it is not last. */
  lemma {:induction false} ReconcileMoveFlags(s: seq<Item>, maxDepth: int, i: nat)
    requires 0 < i < |s|
    ensures var r := Reconciled(s, maxDepth);
      !r[i].upDisabled && (r[i].downDisabled <==> i == |s| - 1)
  {
    assert Reconciled(s, maxDepth)[i] == RestructuredItem(ZeroFirst(Depths(s)), i, s[i], maxDepth);
  }

  /**
   * A nested item at `i > 0` offers child-out exactly when the lookup finds a
   * parent, labelled with that parent; it offers child-in exactly when the
   * previous item has the same depth and `max_depth` exceeds it, labelled with
   * the previous item.
   */
  lemma {:induction false} ReconcileNestedChildActions(s: seq<Item>, maxDepth: int, i: nat)
    requires 0 < i < |s| && s[i].depth != 0
    ensures var r := Reconciled(s, maxDepth);
      var ds := ZeroFirst(Depths(s));
      (r[i].childOutShown <==> ParentOf(ds, i).Some?) &&
      (r[i].childOutShown ==> r[i].childOutRef == ParentOf(ds, i)) &&
      (r[i].childInShown <==> ds[i - 1] == s[i].depth && maxDepth > s[i].depth) &&
      (r[i].childInShown ==> r[i].childInRef == Some(i - 1))
  {
    assert Reconciled(s, maxDepth)[i] == RestructuredItem(ZeroFirst(Depths(s)), i, s[i], maxDepth);
  }

  /**
   * A top-level item at `i > 0` never offers child-out; it offers child-in
   * exactly when there is an item to nest it under, whatever `max_depth` is.
   */
  lemma {:induction false} ReconcileTopLevelChildActions(s: seq<Item>, maxDepth: int, i: nat)
    requires 0 < i < |s| && s[i].depth == 0
    ensures var r := Reconciled(s, maxDepth);
      var ds := ZeroFirst(Depths(s));
      !r[i].childOutShown &&
      (r[i].childInShown <==> UnderTarget(ds, i).Some?) &&
      (r[i].childInShown ==> r[i].childInRef == UnderTarget(ds, i))
  {
    assert Reconciled(s, maxDepth)[i] == RestructuredItem(ZeroFirst(Depths(s)), i, s[i], maxDepth);
  }

  /** A hidden button keeps its former label: the pass never rewrites it. */
  lemma {:induction false} ReconcileKeepsHiddenLabels(s: seq<Item>, maxDepth: int, i: nat)
    requires i < |s|
    ensures var r := Reconciled(s, maxDepth);
      (!r[i].childInShown ==> r[i].childInRef == s[i].childInRef) &&
      (!r[i].childOutShown ==> r[i].childOutRef == s[i].childOutRef)
  {
    assert Reconciled(s, maxDepth)[i] == RestructuredItem(ZeroFirst(Depths(s)), i, s[i], maxDepth);
  }

  lemma {:induction false} RestructuredItemIdempotent(ds: seq<int>, i: nat, it: Item, maxDepth: int)
    requires i < |ds|
    ensures var once := RestructuredItem(ds, i, it, maxDepth);
      RestructuredItem(ds, i, once, maxDepth) == once
  {
    var once := RestructuredItem(ds, i, it, maxDepth);
    if i > 0 {
      // The recomputed flags depend on the position and the depths only.
      assert once.depth == it.depth && once.data == it.data;
    }
  }

  /** A second pass changes nothing, so re-running a deferred reconcile is harmless. */
  lemma {:induction false} ReconcileIdempotent(s: seq<Item>, maxDepth: int)
    ensures Reconciled(Reconciled(s, maxDepth), maxDepth) == Reconciled(s, maxDepth)
  {
    var r := Reconciled(s, maxDepth);
    ReconcileKeepsItems(s, maxDepth);
    var ds := ZeroFirst(Depths(s));
    assert ZeroFirst(Depths(r)) == ds by {
      assert Depths(r) == ds;
    }
    var rr := Reconciled(r, maxDepth);
    forall i | 0 <= i < |s|
      ensures rr[i] == r[i]
    {
      RestructuredItemIdempotent(ds, i, s[i], maxDepth);
    }
  }

  /**
   * `_restructureMenu` as it is evidently meant: the first item's move-down
   * flag is set like every other item's (disabled exactly when it is also the
   * last), and a top-level item is offered child-in only when `max_depth`
   * leaves room for one more level, as a nested item is.
   */
  function RestructuredItemIntended(ds: seq<int>, i: nat, it: Item, maxDepth: int): Item
    requires i < |ds|
  {
    var r := RestructuredItem(ds, i, it, maxDepth);
    if i == 0 then r.(downDisabled := |ds| == 1)
    else if ds[i] == 0 && maxDepth <= 0 then r.(childInShown := false, childInRef := it.childInRef)
    else r
  }

  /** The corrected pass over the whole list. */
  function ReconciledIntended(s: seq<Item>, maxDepth: int): (r: seq<Item>)
    ensures |r| == |s|
  {
    var ds := ZeroFirst(Depths(s));
    seq(|s|, i requires 0 <= i < |s| => RestructuredItemIntended(ds, i, s[i], maxDepth))
  }

  /**
   * Corrected, every item's move flags follow from its position alone: up is
   * disabled exactly for the first item and down exactly for the last. The
   * pass still keeps the data and clears only the first depth.
   */
  lemma {:induction false} ReconcileIntendedMoveFlags(s: seq<Item>, maxDepth: int, i: nat)
    requires i < |s|
    ensures var r := ReconciledIntended(s, maxDepth);
      (r[i].upDisabled <==> i == 0) && (r[i].downDisabled <==> i == |s| - 1) &&
      r[i].depth == ZeroFirst(Depths(s))[i] && r[i].data == s[i].data
  {
    var ds := ZeroFirst(Depths(s));
    assert ReconciledIntended(s, maxDepth)[i] == RestructuredItemIntended(ds, i, s[i], maxDepth);
    IntendedItemMoveFlags(ds, i, s[i], maxDepth);
  }

  lemma {:induction false} IntendedItemMoveFlags(ds: seq<int>, i: nat, it: Item, maxDepth: int)
    requires i < |ds|
    ensures var r := RestructuredItemIntended(ds, i, it, maxDepth);
      (r.upDisabled <==> i == 0) && (r.downDisabled <==> i == |ds| - 1) &&
      r.depth == (if i == 0 then 0 else it.depth) && r.data == it.data
  {
    if i > 0 {
      var base := it.(upDisabled := false, downDisabled := i == |ds| - 1,
                      childInShown := false, childOutShown := false);
      var r := RestructuredItem(ds, i, it, maxDepth);
      assert r.upDisabled == base.upDisabled && r.downDisabled == base.downDisabled &&
        r.depth == base.depth && r.data == base.data;
    }
  }

  /** The corrected pass keeps the order and the data, and clears the first depth only. */
  lemma {:induction false} ReconcileIntendedKeepsItems(s: seq<Item>, maxDepth: int)
    ensures var r := ReconciledIntended(s, maxDepth);
      Depths(r) == ZeroFirst(Depths(s)) &&
      forall k :: 0 <= k < |s| ==> r[k].data == s[k].data
  {
    var r := ReconciledIntended(s, maxDepth);
    var ds := ZeroFirst(Depths(s));
    forall k | 0 <= k < |s|
      ensures Depths(r)[k] == ds[k] && r[k].data == s[k].data
    {
      assert r[k] == RestructuredItemIntended(ds, k, s[k], maxDepth);
    }
  }

  /**
   * Corrected, a shown child-in always leaves room below `max_depth`, at the
   * top level too, and a shown child-out is on a nested item.
   */
  lemma {:induction false} IntendedChildActionBounds(s: seq<Item>, maxDepth: int, i: nat)
    requires i < |s|
    ensures var r := ReconciledIntended(s, maxDepth);
      (r[i].childInShown ==> maxDepth > r[i].depth) && (r[i].childOutShown ==> r[i].depth != 0)
  {
    var ds := ZeroFirst(Depths(s));
    assert ReconciledIntended(s, maxDepth)[i] == RestructuredItemIntended(ds, i, s[i], maxDepth);
    assert i > 0 ==> ds[i] == s[i].depth;
  }
}
