/**
 * The editor instance: the list of `<li class="menu-item">` elements it
 * owns, and the methods of the plugin that read or rearrange that list.
 * Deferred work (`setTimeout` around `_update`) is performed at once: every
 * method that changes the list ends with one reconcile pass, and running
 * the pass again would change nothing (`Restructure.ReconcileIdempotent`).
 */
module Editor {
  import opened MenuTypes
  import opened ParentLookup
  import opened Restructure
  import opened Actions
  import opened Flattening
  import opened Collect
  import opened Nesting

  class MenuEditor {
    /** The menu items, in document order. */
    var items: seq<Item>
    /** The `max_depth` option. */
    const maxDepth: int

    /**
     * `init` and `_renderMenu`: add the initial menus at depth 0, when there
     * are any, then reconcile. `max_depth` defaults to the plugin's 2.
     */
    constructor (menus: seq<MenuNode>, maxDepth: int := DefaultMaxDepth)
      ensures this.maxDepth == maxDepth
      ensures items == Reconciled(Flatten(menus, 0), maxDepth)
    {
      this.maxDepth := maxDepth;
      items := [];
      new;
      ghost var flat := Flatten(menus, 0);
      if menus != [] {
        var added := Add(menus, 0);
        assert [] + flat == flat;
        ReconcileIdempotent(flat, maxDepth);
      } else {
        assert items == flat;
      }
      assert Reconciled(items, maxDepth) == Reconciled(flat, maxDepth);
      Reconcile();
    }

    /**
     * `_findParentMenuOf`: walk back from item `i` until an item whose depth
     * differs from item `i`'s, the start of the list, or the step cap.
     */
    method FindParentMenuOf(i: nat) returns (r: Option<nat>)
      requires i < |items|
      ensures r == ParentOf(Depths(items), i)
    {
      var depth := items[i].depth;
      if depth == 0 {
        return None;
      }
      var menuPrev: int := i - 1;
      var foundIt := false;
      var lostIt := false;
      var step: nat := 1;
      while !foundIt && !lostIt
        invariant 1 <= step < MaxStep && menuPrev == i - step
        invariant !foundIt && !lostIt
        invariant Scan(Depths(items), i, step, DepthDiffers) == ParentOf(Depths(items), i)
        decreases MaxStep - step
      {
        lostIt := menuPrev < 0;
        if !lostIt {
          if items[menuPrev].depth != depth {
            foundIt := true;
          }
        }
        step := step + 1;
        if foundIt || lostIt || step >= MaxStep {
          break;
        }
        menuPrev := menuPrev - 1;
      }
      if foundIt {
        r := Some(menuPrev);
      } else {
        r := None;
      }
    }

    /** `_restructureMenu` for the item at `index` of a list of `menuCount` items. */
    method RestructureMenu(index: nat, menuCount: nat)
      requires index < |items| && menuCount == |items|
      modifies this
      ensures items == old(items)[index := RestructuredItem(Depths(old(items)), index, old(items)[index], maxDepth)]
    {
      var it := items[index].(childInShown := false, childOutShown := false);
      var menuDepth := it.depth;
      if index == 0 {
        it := it.(upDisabled := true);
        // the first item must sit at depth 0
        if menuDepth != 0 {
          it := it.(depth := 0);
        }
      } else {
        it := it.(upDisabled := false, downDisabled := false);
        if index == menuCount - 1 {
          it := it.(downDisabled := true);
        }
        var prevMenuDepth := items[index - 1].depth;
        if menuDepth != 0 {
          var parent := FindParentMenuOf(index);
          if parent.Some? {
            it := it.(childOutShown := true, childOutRef := parent);
          }
          if prevMenuDepth == menuDepth {
            if maxDepth > menuDepth {
              it := it.(childInShown := true, childInRef := Some(index - 1));
            }
          }
        } else {
          // nest under the previous item when it is top-level too, else under its parent
          var underElement: Option<nat>;
          if prevMenuDepth != menuDepth {
            underElement := FindParentMenuOf(index - 1);
          } else {
            underElement := Some(index - 1);
          }
          if underElement.Some? {
            it := it.(childInShown := true, childInRef := underElement);
          }
        }
      }
      items := items[index := it];
    }

    /**
     * `_prepareRestructureMenu`: restructure every item in list order. The
     * result is a reconciled list.
     */
    method Reconcile()
      modifies this
      ensures items == Reconciled(old(items), maxDepth)
      ensures Reconciled(items, maxDepth) == items
    {
      ghost var start := items;
      var menuCount := |items|;
      var index := 0;
      while index < menuCount
        invariant 0 <= index <= menuCount == |items| == |start|
        invariant index > 0 ==> Depths(items) == ZeroFirst(Depths(start))
        invariant forall k :: 0 <= k < index ==> items[k] == Reconciled(start, maxDepth)[k]
        invariant forall k :: index <= k < menuCount ==> items[k] == start[k]
      {
        ghost var before := items;
        RestructureMenu(index, menuCount);
        ReconcileStep(start, before, items, index, maxDepth);
        index := index + 1;
      }
      assert items == Reconciled(start, maxDepth);
      ReconcileIdempotent(start, maxDepth);
    }

    /**
     * `_moveMenu` for every action but `cancel`: an up/down move without a
     * neighbour is refused and changes nothing; any other action makes its
     * change and reconciles. Pressing a button the last pass offered keeps
     * every depth within [0, max_depth].
     */
    method MoveMenu(index: nat, action: Action) returns (ok: bool)
      requires index < |items|
      modifies this
      ensures Applied(old(items), index, action).None? ==> !ok && items == old(items)
      ensures Applied(old(items), index, action).Some? ==>
        ok && items == Reconciled(Applied(old(items), index, action).value, maxDepth)
      ensures (old(Reconciled(items, maxDepth) == items && DepthsWithin(items, maxDepth) && Offered(items[index], action)) &&
               (action == ChildIn ==> maxDepth >= 1)) ==> DepthsWithin(items, maxDepth)
    {
      ghost var start := items;
      var menuIndex: int := index;
      var menuCount := |items|;
      var menuDepth: int := MoveDepth(items[index].depth);
      var menuTargetIndex: int := 0;
      if action == Up || action == Down {
        if action == Up {
          menuTargetIndex := menuIndex - 1;
        } else {
          menuTargetIndex := menuIndex + 1;
        }
        if menuTargetIndex < 0 || menuTargetIndex >= menuCount {
          return false;
        }
      }
      match action {
        case ChildIn =>
          menuDepth := menuDepth + 1;
          items := items[index := items[index].(depth := menuDepth)];
        case ChildOut =>
          // reaching 0 clears the depth, which reads as 0 again
          menuDepth := menuDepth - 1;
          items := items[index := items[index].(depth := menuDepth)];
        case Up =>
          items := items[menuTargetIndex := items[index]][index := items[menuTargetIndex]];
        case Down =>
          items := items[index := items[menuTargetIndex]][menuTargetIndex := items[index]];
        case Remove =>
          items := items[..index] + items[index + 1..];
      }
      assert items == Applied(start, index, action).value;
      Reconcile();
      ok := true;
      if Reconciled(start, maxDepth) == start && DepthsWithin(start, maxDepth) && Offered(start[index], action) && (action == ChildIn ==> maxDepth >= 1) {
        OfferedActionKeepsDepthsWithin(start, maxDepth, index, action);
      }
    }

    /**
     * A drag-and-drop drop: the list moves the dragged item from `from` to
     * `to`, then its `onEnd` handler reconciles.
     */
    method DropMove(from: nat, to: nat)
      requires from < |items| && to < |items|
      modifies this
      ensures items == Reconciled(MovedTo(old(items), from, to), maxDepth)
    {
      items := MovedTo(items, from, to);
      Reconcile();
    }

    /**
     * The loop of `add` without its final reconcile: append the nodes of
     * `data` at depth `menuDepth`, each followed by its non-empty `submenu`
     * one level deeper.
     */
    method AppendMenus(data: seq<MenuNode>, menuDepth: int)
      modifies this
      ensures items == old(items) + Flatten(data, menuDepth)
      decreases ForestSize(data)
    {
      var i := 0;
      while i < |data|
        invariant 0 <= i <= |data|
        invariant items == old(items) + Flatten(data[..i], menuDepth)
      {
        var itemData := data[i];
        ghost var before := items;
        items := items + [NewItem(itemData, menuDepth)];
        if |Children(itemData)| > 0 {
          ChildrenSmaller(data, i);
          AppendMenus(Children(itemData), menuDepth + 1);
        }
        AppendStep(old(items), data, i, menuDepth, before, items);
        i := i + 1;
      }
      assert data[..|data|] == data;
    }

    /**
     * `add`: refuse an empty input; otherwise append the nodes in pre-order
     * and reconcile.
     */
    method Add(data: seq<MenuNode>, menuDepth: int) returns (ok: bool)
      modifies this
      ensures data == [] ==> !ok && items == old(items)
      ensures data != [] ==> ok && items == Reconciled(old(items) + Flatten(data, menuDepth), maxDepth)
    {
      if data == [] {
        return false;
      }
      AppendMenus(data, menuDepth);
      Reconcile();
      ok := true;
    }

    /** `load`: `add` at depth 0. */
    method Load(data: seq<MenuNode>)
      modifies this
      ensures data == [] ==> items == old(items)
      ensures data != [] ==> items == Reconciled(old(items) + Flatten(data, 0), maxDepth)
    {
      var added := Add(data, 0);
    }

    /**
     * `_collectDataMenus` (and `data('object')`): the menu document read back
     * from the list, or the failure at the first nested item without a parent.
     */
    method CollectDataMenus() returns (r: CollectResult)
      ensures r == CollectAsWritten(items)
    {
      var parents, orphan := TagParents();
      if orphan.Some? {
        TagFailsAt(items, parents);
        r := NullParent(orphan.value);
        return;
      }
      TaggedAsWritten(items, parents);
      var dataIndexed := IndexData(items);
      dataIndexed := NestChildren(items, parents, dataIndexed);
      var values := TopLevelValues(items, parents, dataIndexed);
      var data := CleanupMenu(values);
      r := Collected(data);
      CollectedWhenNoOrphan(items, parents, true);
    }

    /**
     * The first loop of `_collectDataMenus`: give every nested item its
     * parent's position, stopping at the first nested item the lookup finds
     * no parent for (where `$menu_parent.index()` is called on null).
     */
    method TagParents() returns (parents: seq<Option<nat>>, orphan: Option<nat>)
      ensures TaggedPrefix(Depths(items), parents) && ParentsPrecede(parents) && NestedTagged(items, parents)
      ensures orphan.Some? ==> (orphan.value == |parents| < |items| &&
        items[orphan.value].depth != 0 && ParentOf(Depths(items), orphan.value).None?)
      ensures orphan.None? ==> |parents| == |items|
    {
      parents := [];
      var index := 0;
      while index < |items|
        invariant 0 <= index <= |items| && |parents| == index
        invariant TaggedPrefix(Depths(items), parents) && ParentsPrecede(parents) && NestedTagged(items, parents)
      {
        var parentIndex: Option<nat> := None;
        if items[index].depth != 0 {
          var menuParent := FindParentMenuOf(index);
          if menuParent.None? {
            return parents, Some(index);
          }
          parentIndex := menuParent;
        }
        TagAppend(Depths(items), parents, parentIndex);
        assert ParentsPrecede(parents + [parentIndex]) && NestedTagged(items, parents + [parentIndex]) by {
          ParentsAppend(parents, parentIndex);
          NestedAppend(items, parents, parentIndex);
        }
        parents := parents + [parentIndex];
        index := index + 1;
      }
      orphan := None;
    }
  }

  /** `parents` gives the first `|parents|` items the parents the lookup finds. */
  ghost predicate TaggedPrefix(ds: seq<int>, parents: seq<Option<nat>>) {
    |parents| <= |ds| && forall j :: 0 <= j < |parents| ==> parents[j] == ParentOf(ds, j)
  }

  /** Every nested item among the first `|parents|` has been given a parent. */
  predicate NestedTagged(s: seq<Item>, parents: seq<Option<nat>>) {
    |parents| <= |s| && forall j :: 0 <= j < |parents| ==> s[j].depth == 0 || parents[j].Some?
  }

  /** Tagging one more position with what the lookup finds for it. */
  lemma {:induction false} TagAppend(ds: seq<int>, parents: seq<Option<nat>>, x: Option<nat>)
    requires |parents| < |ds| && TaggedPrefix(ds, parents)
    requires x == ParentOf(ds, |parents|)
    ensures TaggedPrefix(ds, parents + [x])
  {
    var t := parents + [x];
    forall j | 0 <= j < |t|
      ensures t[j] == ParentOf(ds, j)
    {
      if j < |parents| {
        assert t[j] == parents[j];
      }
    }
  }

  lemma {:induction false} ParentsAppend(parents: seq<Option<nat>>, x: Option<nat>)
    requires ParentsPrecede(parents) && (x.Some? ==> x.value < |parents|)
    ensures ParentsPrecede(parents + [x])
  {
    var t := parents + [x];
    forall j | 0 <= j < |t| && t[j].Some?
      ensures t[j].value < j
    {
      if j < |parents| {
        assert t[j] == parents[j];
      }
    }
  }

  lemma {:induction false} NestedAppend(s: seq<Item>, parents: seq<Option<nat>>, x: Option<nat>)
    requires |parents| < |s| && NestedTagged(s, parents) && (s[|parents|].depth == 0 || x.Some?)
    ensures NestedTagged(s, parents + [x])
  {
    var t := parents + [x];
    forall j | 0 <= j < |t|
      ensures s[j].depth == 0 || t[j].Some?
    {
      if j < |parents| {
        assert t[j] == parents[j];
      }
    }
  }

  /** The reconcile loop's step: position `index` takes its reconciled value and nothing else changes. */
  lemma {:induction false} ReconcileStep(start: seq<Item>, before: seq<Item>, after: seq<Item>, index: nat, maxDepth: int)
    requires index < |before| == |start|
    requires index > 0 ==> Depths(before) == ZeroFirst(Depths(start))
    requires forall k :: index <= k < |start| ==> before[k] == start[k]
    requires after == before[index := RestructuredItem(Depths(before), index, before[index], maxDepth)]
    ensures Depths(after) == ZeroFirst(Depths(start))
    ensures after[index] == Reconciled(start, maxDepth)[index]
  {
    var ds := ZeroFirst(Depths(start));
    assert Reconciled(start, maxDepth)[index] == RestructuredItem(ds, index, start[index], maxDepth);
    forall k | 0 <= k < |after|
      ensures Depths(after)[k] == ds[k]
    {
      if k == index {
        assert after[k] == RestructuredItem(Depths(before), index, start[index], maxDepth);
      }
    }
  }

  /** One round of `AppendMenus`' loop extends the flattened prefix by one tree. */
  lemma {:induction false} AppendStep(start: seq<Item>, data: seq<MenuNode>, i: nat, d: int,
                                      before: seq<Item>, after: seq<Item>)
    requires i < |data| && before == start + Flatten(data[..i], d)
    requires after == before + [NewItem(data[i], d)] + Flatten(Children(data[i]), d + 1)
    ensures after == start + Flatten(data[..i + 1], d)
  {
    FlattenPrefix(data, i, d);
  }

  lemma {:induction false} FlattenPrefix(data: seq<MenuNode>, i: nat, d: int)
    requires i < |data|
    ensures Flatten(data[..i + 1], d) == Flatten(data[..i], d) + [NewItem(data[i], d)] + Flatten(Children(data[i]), d + 1)
  {
    assert data[..i + 1] == data[..i] + [data[i]];
    FlattenAppend(data[..i], [data[i]], d);
    assert [data[i]][1..] == [];
  }

  /** The position the first loop stops at is where collecting fails. */
  lemma {:induction false} TagFailsAt(s: seq<Item>, parents: seq<Option<nat>>)
    requires |parents| < |s| && TaggedPrefix(Depths(s), parents) && NestedTagged(s, parents)
    requires s[|parents|].depth != 0 && ParentOf(Depths(s), |parents|).None?
    ensures CollectAsWritten(s) == NullParent(|parents|)
  {
    var par := ParentsAsWritten(Depths(s));
    forall j | 0 <= j < |parents|
      ensures s[j].depth == 0 || par[j].Some?
    {
      assert par[j] == parents[j];
    }
    CollectFailsAt(s, par, true, |parents|);
  }

  /** Once every item is tagged, the tags are the parents the lookup gives. */
  lemma {:induction false} TaggedAsWritten(s: seq<Item>, parents: seq<Option<nat>>)
    requires |parents| == |s| && TaggedPrefix(Depths(s), parents)
    ensures parents == ParentsAsWritten(Depths(s))
  {
  }

  /** The `data_indexed` table before nesting: every position with its data and an empty `submenu`. */
  method IndexData(s: seq<Item>) returns (dataIndexed: map<nat, Pending>)
    ensures forall j: nat :: j in dataIndexed <==> j < |s|
    ensures forall j: nat :: j in dataIndexed ==> dataIndexed[j] == Pending(s[j].data, j, [])
  {
    dataIndexed := map[];
    var i := 0;
    while i < |s|
      invariant 0 <= i <= |s|
      invariant forall j: nat :: j in dataIndexed <==> j < i
      invariant forall j: nat :: j in dataIndexed ==> dataIndexed[j] == Pending(s[j].data, j, [])
    {
      dataIndexed := dataIndexed[i := Pending(s[i].data, i, [])];
      i := i + 1;
    }
  }

  /**
   * The reverse loop of `_collectDataMenus`: from the last position to the
   * first, push the object of every position that has a parent onto the end
   * of its parent's `submenu` and drop it from the table. What remains is
   * the top level, each entry its finished node.
   */
  method NestChildren(s: seq<Item>, par: seq<Option<nat>>, start: map<nat, Pending>) returns (dataIndexed: map<nat, Pending>)
    requires |par| == |s| && ParentsPrecede(par)
    requires forall j: nat :: j in start <==> j < |s|
    requires forall j: nat :: j in start ==> start[j] == Pending(s[j].data, j, [])
    ensures forall j: nat :: j in dataIndexed <==> j < |s| && par[j].None?
    ensures forall j: nat :: j in dataIndexed ==> dataIndexed[j] == NodeAt(s, par, true, j)
  {
    dataIndexed := start;
    var i: int := |s| - 1;
    NestStart(s, par, dataIndexed);
    while i >= 0
      invariant -1 <= i < |s|
      invariant NestedFrom(s, par, dataIndexed, i)
      decreases i
    {
      ghost var before := dataIndexed;
      NestKeys(s, par, dataIndexed, i);
      var item := dataIndexed[i];
      var parentIndex := par[i];
      if parentIndex.Some? {
        var p := parentIndex.value;
        var itemIndexed := dataIndexed[p];
        // the "sort by index" comparator reads a key that is never set: the order stays as pushed
        itemIndexed := itemIndexed.(submenu := itemIndexed.submenu + [item]);
        dataIndexed := dataIndexed[p := itemIndexed];
        dataIndexed := dataIndexed - {i};
      }
      NestStep(s, par, before, dataIndexed, i);
      i := i - 1;
    }
    NestEnd(s, par, dataIndexed);
  }

  /** `Object.values` of the table: the remaining entries in ascending position. */
  method TopLevelValues(s: seq<Item>, par: seq<Option<nat>>, dataIndexed: map<nat, Pending>) returns (values: seq<Pending>)
    requires |par| == |s|
    requires forall j: nat :: j in dataIndexed <==> j < |s| && par[j].None?
    requires forall j: nat :: j in dataIndexed ==> dataIndexed[j] == NodeAt(s, par, true, j)
    ensures values == Forest(s, par, true)
  {
    values := [];
    var k := |s|;
    while k > 0
      invariant 0 <= k <= |s|
      invariant values == NodesAt(s, par, true, WithParent(par, None, k), -1)
    {
      k := k - 1;
      if k in dataIndexed {
        TopLevelPush(s, par, k, values);
        values := [dataIndexed[k]] + values;
      } else {
        WithParentStep(par, None, k);
      }
    }
  }

  /** A root met on the way down goes in front of the roots after it. */
  lemma {:induction false} TopLevelPush(s: seq<Item>, par: seq<Option<nat>>, k: nat, values: seq<Pending>)
    requires |par| == |s| && k < |s| && par[k].None?
    requires values == NodesAt(s, par, true, WithParent(par, None, k + 1), -1)
    ensures [NodeAt(s, par, true, k)] + values == NodesAt(s, par, true, WithParent(par, None, k), -1)
  {
    WithParentStep(par, None, k);
    NodesAtCons(s, par, true, k, WithParent(par, None, k + 1), -1);
  }

  /**
   * `cleanupMenu`: drop the position key from every object and the
   * `submenu` key from those whose array is empty, cleaning non-empty
   * arrays first.
   */
  method CleanupMenu(menus: seq<Pending>) returns (newdata: seq<MenuNode>)
    ensures newdata == Cleaned(menus)
    decreases menus
  {
    newdata := [];
    var i := 0;
    while i < |menus|
      invariant 0 <= i <= |menus|
      invariant newdata == Cleaned(menus[..i])
    {
      var item := menus[i];
      var cleaned: MenuNode;
      if |item.submenu| > 0 {
        var submenu := CleanupMenu(item.submenu);
        cleaned := Branch(item.fields, submenu);
      } else {
        cleaned := Leaf(item.fields);
      }
      CleanedPrefix(menus, i);
      newdata := newdata + [cleaned];
      i := i + 1;
    }
    assert menus[..|menus|] == menus;
  }

  lemma {:induction false} CleanedPrefix(ps: seq<Pending>, i: nat)
    requires i < |ps|
    ensures Cleaned(ps[..i + 1]) == Cleaned(ps[..i]) + [CleanedNode(ps[i])]
    decreases i
  {
    if i == 0 {
      assert ps[..1] == [ps[0]];
    } else {
      assert ps[..i + 1][1..] == ps[1..][..i];
      assert ps[..i][1..] == ps[1..][..i - 1];
      CleanedPrefix(ps[1..], i - 1);
    }
  }
}
