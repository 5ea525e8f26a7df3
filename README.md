# wpMenuEditor core, modelled in Dafny

wpMenuEditor is a jQuery plugin for editing a nested navigation menu. The
editor keeps a flat list of `<li class="menu-item">` elements. Each element
holds a data object and an indentation depth, stored in the `--wpmenu_depth`
CSS variable. All nesting is derived from that depth column.

This project models the list and the operations on it:

- the backward parent lookup (`_findParentMenuOf`);
- the reconcile pass that recomputes every item's buttons (`_prepareRestructureMenu` / `_restructureMenu`);
- the edit actions (`_moveMenu`) and a drag-and-drop drop;
- loading a nested document into the list (`add`, `load`, `init`);
- reading the document back out (`_collectDataMenus` with `cleanupMenu`).

The editor instance is the class `Editor.MenuEditor`. Its `items` field is a
`seq<Item>`, and its methods update it the way the plugin updates the DOM.
Each method is proved against a specification function:

| function | what it specifies |
|---|---|
| `ParentLookup.ParentOf` | the lookup |
| `Restructure.Reconciled` | the pass |
| `Actions.Applied` / `Actions.MovedTo` | the action's own change |
| `Flattening.Flatten` | `add`'s pre-order |
| `Collect.CollectAsWritten` | the read-back |

The lemmas in the spec modules state what those functions guarantee.

Modules:

- `MenuTypes`: items, menu nodes, the constants `max_step` (100), the default `max_depth` (2) and the default type `link`.
- `ParentLookup`, `Restructure`, `Actions`, `Flattening`, `Collect`: the spec functions and their properties.
- `Nesting`: the invariant of the reverse loop in `_collectDataMenus`.
- `Editor`: the class and its loops.
- `RoundTrip`: load-then-read-back.
- `Findings`: two concrete documents that the code as written reads back wrongly, and two small lists on which the reconcile pass as written offers the wrong buttons. `Restructure` and `Actions` hold the corrected pass (`ReconciledIntended`) and what is proved about it.

A depth that is absent counts as 0. Text labels ("Under X", "Out from X")
are modelled as the position of X. The item data object is an opaque
`map<string, string>`.

## Model

| member | source | states |
|---|---|---|
| ParentLookup.ParentOf | src/jquery.wpmenu-editor.js:840-874 | None at depth 0. Otherwise the nearest of the at most 99 inspected predecessors whose depth differs from the item's, with every item in between at the item's depth. None when no inspected predecessor differs. |
| ParentLookup.Scan | src/jquery.wpmenu-editor.js:852-868 | The loop from step `step` on. It stops at the first accepted predecessor, gives up at the list start or when the step counter reaches 100, and nothing before the stop is accepted. |
| ParentLookup.DiffersPicksDeeperPredecessor | src/jquery.wpmenu-editor.js:858 | For depths 0,1,2,1 the last item's parent is item 2 as written and item 0 under the "strictly smaller" rule. |
| ParentLookup.ParentOfIntended | src/jquery.wpmenu-editor.js:840-874 | The corrected lookup: the nearest inspected predecessor with a strictly smaller depth. |
| ParentLookup.LookupWithinShortPrefix | src/jquery.wpmenu-editor.js:846-864 | With fewer than 100 predecessors the step cap never bites. A nested item has no parent iff no predecessor passes the rule. Otherwise the result is the nearest predecessor that does. |
| Editor.MenuEditor.FindParentMenuOf | src/jquery.wpmenu-editor.js:840-874 | The while loop with `found_it`/`lost_it`/`step` returns exactly `ParentOf`. |
| Restructure.ZeroFirst | src/jquery.wpmenu-editor.js:621-625 | The only depth the pass changes is the first, which it clears. |
| Restructure.Reconciled | src/jquery.wpmenu-editor.js:589-688 | The pass keeps the length. Each item is restructured after the first item's depth is cleared. |
| Restructure.ReconcileKeepsItems | src/jquery.wpmenu-editor.js:589-688 | The pass keeps order and data. The depth column becomes the old one with the first depth cleared. |
| Restructure.ReconcileFirstItem | src/jquery.wpmenu-editor.js:611-626 | Item 0 ends at depth 0 with up disabled and both child actions hidden. Its down flag and data are untouched. |
| Restructure.ReconcileMoveFlags | src/jquery.wpmenu-editor.js:627-641 | Every later item has up enabled. Down is disabled iff the item is last. |
| Restructure.ReconciledIntended | src/jquery.wpmenu-editor.js:611-686 | The corrected pass keeps the length. |
| Restructure.ReconcileIntendedMoveFlags | src/jquery.wpmenu-editor.js:616-641 | Corrected, up is disabled iff the item is first and down iff it is last, item 0 included. Depth and data are as in the pass as written. |
| Restructure.IntendedItemMoveFlags | src/jquery.wpmenu-editor.js:616-641 | The same flags for one item of the corrected pass. |
| Restructure.ReconcileIntendedKeepsItems | src/jquery.wpmenu-editor.js:621-625 | The corrected pass keeps the order and the data and clears only the first depth. |
| Restructure.IntendedChildActionBounds | src/jquery.wpmenu-editor.js:658-686 | Corrected, a shown child-in always leaves room below `max_depth`, at the top level too. A shown child-out is on a nested item. |
| Restructure.ReconcileNestedChildActions | src/jquery.wpmenu-editor.js:647-669 | For a nested item at i>0: child-out is shown iff the lookup finds a parent, and is labelled with it. Child-in is shown iff item i-1 has the same depth and `max_depth` exceeds it, and is labelled i-1. |
| Restructure.ReconcileTopLevelChildActions | src/jquery.wpmenu-editor.js:670-686 | For a top-level item at i>0: child-out is hidden. Child-in is shown iff its target exists (item i-1 when it has the same depth, else i-1's parent), and is labelled with that target. |
| Restructure.ReconcileKeepsHiddenLabels | src/jquery.wpmenu-editor.js:654-683 | A label is rewritten only when its button is shown. |
| Restructure.ReconcileIdempotent | src/jquery.wpmenu-editor.js:589-597 | A second pass changes nothing, so running it again (as the deferred `_update` does) is harmless. |
| Restructure.RestructuredItemIdempotent | src/jquery.wpmenu-editor.js:609-688 | Restructuring an already restructured item changes nothing. |
| Editor.MenuEditor.RestructureMenu | src/jquery.wpmenu-editor.js:609-688 | `_restructureMenu` replaces item `index` with its restructured record and nothing else. |
| Editor.MenuEditor.Reconcile | src/jquery.wpmenu-editor.js:589-597 | The loop over all items leaves `Reconciled(old items)`, a list the pass fixes. |
| Editor.ReconcileStep | src/jquery.wpmenu-editor.js:593-596 | After restructuring item `index`, it equals that item of the full pass, and the depth column is already final. |
| Actions.MoveDepth | src/jquery.wpmenu-editor.js:509-516 | `parseInt` of the depth, with absent or negative read as 0. |
| Actions.UpSwapsWithPredecessor | src/jquery.wpmenu-editor.js:518-563 | Up is refused only at index 0. Otherwise it swaps the item with its predecessor, both records keep their depths, and down undoes it. |
| Actions.DownSwapsWithSuccessor | src/jquery.wpmenu-editor.js:518-563 | Down is refused only for the last item. Otherwise it swaps with the successor, and up undoes it. |
| Actions.ChildActionsShiftDepthByOne | src/jquery.wpmenu-editor.js:530-553 | Child-in adds exactly 1 and child-out takes exactly 1, with no clamp at `max_depth`. No other item changes, and child-out undoes child-in. |
| Actions.RemoveDeletesItem | src/jquery.wpmenu-editor.js:565-569 | Remove deletes exactly that item and keeps the rest in order. |
| Actions.DropPermutes | src/jquery.wpmenu-editor.js:1007-1011 | A drop permutes the list and puts the dragged item at its target. Dropping back restores the list. |
| Actions.DropKeepsMultiset | src/jquery.wpmenu-editor.js:1007-1011 | A drop keeps the multiset of items. |
| Actions.DropUndone | src/jquery.wpmenu-editor.js:1007-1011 | Moving the item back restores the list. |
| Actions.MovedTo | src/jquery.wpmenu-editor.js:1007-1011 | The drop keeps the length. |
| Actions.ShownChildActionBounds | src/jquery.wpmenu-editor.js:658-683 | On a reconciled list, a shown child-in implies depth 0 or `max_depth` above the depth. A shown child-out implies a nonzero depth. |
| Actions.OfferedActionKeepsDepthsWithin | src/jquery.wpmenu-editor.js:501-582 | Pressing a button the last pass offers, and reconciling, keeps every depth in [0, max_depth], for child-in only when `max_depth` is at least 1. `max_depth` is enforced only by hiding child-in. |
| Actions.OfferedActionDepths | src/jquery.wpmenu-editor.js:530-569 | The same bound for the action's own change, before the pass. |
| Actions.OfferedActionKeepsDepthsWithinIntended | src/jquery.wpmenu-editor.js:501-582 | With the corrected pass the bound holds for every action and every `max_depth`, 0 included. |
| Actions.OfferedActionDepthsIntended | src/jquery.wpmenu-editor.js:530-569 | With the corrected pass, an offered action's own change keeps depths in range, and a list in range forces `max_depth` ≥ 0. |
| Actions.ReconcileIntendedKeepsDepthsWithin | src/jquery.wpmenu-editor.js:621-625 | The corrected pass keeps depths in range. |
| Actions.MoveKeepsDepthsWithin | src/jquery.wpmenu-editor.js:555-569 | Up, down and remove keep depths in range. |
| Actions.ShiftKeepsDepthsWithin | src/jquery.wpmenu-editor.js:530-553 | Child-in below `max_depth` and child-out above 0 keep depths in range. |
| Actions.ReconcileKeepsDepthsWithin | src/jquery.wpmenu-editor.js:621-625 | The pass keeps depths in range. |
| Editor.MenuEditor.MoveMenu | src/jquery.wpmenu-editor.js:501-582 | An out-of-range up/down returns false and changes nothing, with no pass. Any other action makes its change and reconciles. An offered button keeps depths in range, child-in only when `max_depth` is at least 1. |
| Editor.MenuEditor.DropMove | src/jquery.wpmenu-editor.js:1007-1011 | The drop followed by the `onEnd` reconcile. |
| Flattening.WithDefaultType | src/jquery.wpmenu-editor.js:297-298 | A missing or empty `type` becomes `link`. Other keys are kept. |
| Flattening.FlattenLength | src/jquery.wpmenu-editor.js:161-186 | `add` appends one item per node. |
| Flattening.FlattenTreeLength | src/jquery.wpmenu-editor.js:161-186 | A tree contributes one item per node. |
| Flattening.FlattenAppend | src/jquery.wpmenu-editor.js:170-181 | Adding two forests appends their lists. |
| Flattening.FlattenDepthsAtLeast | src/jquery.wpmenu-editor.js:170-181 | A forest added at depth d starts with its first root at depth d, and every item is at depth d or deeper. |
| Flattening.FlattenTreeDepthsAtLeast | src/jquery.wpmenu-editor.js:170-181 | A tree's first item is its root at d. The rest are deeper. |
| Flattening.ChildrenSmaller | src/jquery.wpmenu-editor.js:179-180 | The recursive call on a `submenu` is on a smaller document, so `add` terminates. |
| Editor.MenuEditor.AppendMenus | src/jquery.wpmenu-editor.js:170-181 | The recursive loop of `add` appends exactly `Flatten(data, depth)`. |
| Editor.FlattenPrefix | src/jquery.wpmenu-editor.js:170-181 | One loop iteration appends one node and then its flattened `submenu`. |
| Editor.MenuEditor.Add | src/jquery.wpmenu-editor.js:161-186 | Empty input returns false and changes nothing. Otherwise the list gets the pre-order items appended and is reconciled. |
| Editor.MenuEditor.Load | src/jquery.wpmenu-editor.js:195-198 | `add` at depth 0. |
| Editor.MenuEditor.constructor | src/jquery.wpmenu-editor.js:129-147 | `init`/`_renderMenu` leave the initial menus loaded at depth 0 and reconciled. `max_depth` defaults to 2. |
| Collect.ParentsAsWritten | src/jquery.wpmenu-editor.js:760-763 | Every position is tagged with the lookup's parent. |
| Collect.ParentsIntended | src/jquery.wpmenu-editor.js:760-763 | The same with the corrected lookup. |
| Collect.FirstOrphan | src/jquery.wpmenu-editor.js:760-763 | The first nested position without a parent, where `$menu_parent.index()` is called on null. |
| Collect.WithParentListsChildren | src/jquery.wpmenu-editor.js:804-825 | The positions pushed into a parent are exactly its tagged children, in increasing order. |
| Collect.Reversed | src/jquery.wpmenu-editor.js:804-825 | The push order of the reverse loop is the flat order reversed. |
| Collect.Ordered | src/jquery.wpmenu-editor.js:793-820 | Siblings in push order (as written) or ascending (corrected). |
| Collect.OrderedKeeps | src/jquery.wpmenu-editor.js:818-820 | The sort keeps every sibling. |
| Collect.Cleaned | src/jquery.wpmenu-editor.js:727-745 | `cleanupMenu` keeps the number of entries. |
| Collect.CleanedIsCanonical | src/jquery.wpmenu-editor.js:727-745 | `cleanupMenu` keeps every entry with its fields, and keeps `submenu` exactly when it is non-empty, at every level. |
| Collect.CollectTopLevel | src/jquery.wpmenu-editor.js:804-829 | Without an orphan, the top level is exactly the depth-0 items, each once, ascending, with their data. |
| Collect.SubmenuEntries | src/jquery.wpmenu-editor.js:804-825 | Every submenu entry is a position tagged with that parent and carries its data. Siblings are ordered as the sort leaves them. |
| Collect.SubmenuComplete | src/jquery.wpmenu-editor.js:804-825 | Every position tagged with a parent appears in that parent's submenu. |
| Collect.SubmenuReversesSiblings | src/jquery.wpmenu-editor.js:793-820 | As written, a node's submenu holds each of its lookup children once, in descending position. |
| Collect.SubmenuKeepsSiblingOrder | src/jquery.wpmenu-editor.js:817-820 | Corrected, the same submenu is in ascending position. |
| Nesting.PushedReversed | src/jquery.wpmenu-editor.js:804-825 | After the reverse loop has passed `lo`, a node's submenu holds its children from `lo` on, in descending position. |
| Nesting.PartialComplete | src/jquery.wpmenu-editor.js:804-825 | When the loop reaches position i, i's object is its finished node. |
| Nesting.PushIntoParent | src/jquery.wpmenu-editor.js:812-822 | Pushing position i appends its finished node to its parent's submenu. |
| Nesting.PushElsewhere | src/jquery.wpmenu-editor.js:812-822 | Pushing i leaves every other object unchanged. |
| Nesting.NestStart | src/jquery.wpmenu-editor.js:799-803 | The freshly indexed table satisfies the loop invariant. |
| Nesting.NestStep | src/jquery.wpmenu-editor.js:804-825 | One iteration keeps the invariant: the pushed entry leaves the table, and a top-level entry stays. |
| Nesting.NestEnd | src/jquery.wpmenu-editor.js:827 | After the loop, the table holds exactly the top-level positions, each its finished node. |
| Nesting.CollectedWhenNoOrphan | src/jquery.wpmenu-editor.js:760-829 | Without an orphan, the read-back is the cleaned top level. |
| Nesting.CollectFailsAt | src/jquery.wpmenu-editor.js:760-763 | The first orphan is where the read-back fails. |
| Editor.MenuEditor.TagParents | src/jquery.wpmenu-editor.js:748-786 | The first loop tags each position with its lookup parent (parents precede children), and stops at the first orphan. |
| Editor.TagFailsAt | src/jquery.wpmenu-editor.js:760-763 | Stopping at an orphan gives exactly the failure `CollectAsWritten` reports. |
| Editor.TaggedAsWritten | src/jquery.wpmenu-editor.js:748-786 | A complete tagging equals `ParentsAsWritten`. |
| Editor.TagAppend | src/jquery.wpmenu-editor.js:760-783 | Tagging one more position keeps the prefix correct. |
| Editor.IndexData | src/jquery.wpmenu-editor.js:799-803 | `data_indexed` holds every position with its data and an empty `submenu`. |
| Editor.NestChildren | src/jquery.wpmenu-editor.js:804-825 | The reverse loop leaves exactly the top-level positions, each its finished node. |
| Editor.TopLevelValues | src/jquery.wpmenu-editor.js:827 | `Object.values` gives the remaining nodes in ascending position. |
| Editor.MenuEditor.CleanupMenu | src/jquery.wpmenu-editor.js:727-745 | The recursive loop yields `Cleaned(menus)`. |
| Editor.MenuEditor.CollectDataMenus | src/jquery.wpmenu-editor.js:717-830 | The three loops and `cleanupMenu` compute exactly `CollectAsWritten(items)`, including the failure at the first orphan. |
| RoundTrip.LoadThenCollectRoundTrips | src/jquery.wpmenu-editor.js:717-830 | Corrected, reading back a freshly added document of at most 100 nodes never fails. It returns the document with default types filled in and empty `submenu`s dropped. |
| RoundTrip.LoadedEditorReadsBack | src/jquery.wpmenu-editor.js:717-830 | The same for an editor built on the document, after its reconcile pass. |
| RoundTrip.CollectIgnoresReconcile | src/jquery.wpmenu-editor.js:589-688 | When the first item is top-level, the pass does not change what is read back. |
| RoundTrip.LoadedHasNoOrphan | src/jquery.wpmenu-editor.js:760-763 | In a freshly loaded document within the window, every nested item has a parent under the corrected lookup. |
| RoundTrip.LoadedRoots | src/jquery.wpmenu-editor.js:804-829 | The corrected roots of a loaded document are its top-level nodes. |
| Findings.SiblingsComeBackReversed | src/jquery.wpmenu-editor.js:793-820 | A{B,C} reads back as A{C,B} as written, and as A{B,C} corrected. |
| Findings.SiblingAfterGrandchildSinks | src/jquery.wpmenu-editor.js:858 | A{B{C},D} reads back as A{B{C{D}}} as written, and unchanged corrected. |
| Findings.CollectSiblings | src/jquery.wpmenu-editor.js:804-829 | Depths 0,1,1 read back as one menu with two children, in the order each reading uses. |
| Findings.CollectDeeperPredecessor | src/jquery.wpmenu-editor.js:804-829 | Depths 0,1,2,1 read back as a chain as written, and as a menu with two children corrected. |
| Findings.DeeperPredecessorParents | src/jquery.wpmenu-editor.js:840-874 | The parent tables of depths 0,1,2,1 under both rules. |
| Findings.TopLevelChildInIgnoresMaxDepth | src/jquery.wpmenu-editor.js:670-686 | At `max_depth` 0, two top-level items form a reconciled list in range. The second is offered child-in, and pressing it leaves depth 1. Corrected, the button is hidden. |
| Findings.FirstItemKeepsDownDisabled | src/jquery.wpmenu-editor.js:611-641 | Moving the second of two items up leaves it first with down still disabled. Corrected, it can move down and the new last item cannot. |

## Left out

- Presentation: the HTML templates, form fields, label text and random element ids are not modelled. Item data is an opaque map, and labels are positions.
- The live input values that `_collectDataMenus` reads from the form fields are not modelled. The item's data object stands for the merged data.
- The event wiring (`_menuEvents`, `_menuEvent`, `_inserterEvents`), the `wpmenu:added` trigger and the toggle animations are not modelled.
- `setTimeout` deferrals are replaced by an immediate reconcile at the end of `add`. `ReconcileIdempotent` shows that running the deferred pass again changes nothing.
- Sortable's own behaviour is not modelled. A drop is an arbitrary move (`MovedTo`) followed by the `onEnd` reconcile.
- The `cancel` action is not modelled: it only toggles the item's open state and then reconciles, which on a reconciled list changes nothing.
- The JSON deep copies and `JSON.stringify` in `data` are not modelled: the model uses value semantics.
- The plugin registry, the module loader and the Sortable dependency check in `init` are not modelled.
- Rendering the inline add-menu button in `_renderMenu` is not modelled.
- Depth-drift repair, snap-on-drag and a `max_depth` clamp inside child-in are not in this code, so they are not modelled either.
- Depths are integers. The CSS variable is a string, but a stored depth is never `0` and the absent value reads as 0, so string comparison agrees with integer comparison.
- The sort comparator's NaN result is modelled as "keep push order". This assumes the data objects carry no `index` key of their own.
- RoundTrip.LoadThenCollectRoundTrips: proved only for documents of at most 100 nodes. Beyond that the 99-step window can miss a distant parent.
- Collect.CollectTopLevel: states "each item exactly once" per level (top level, and each submenu through SubmenuReversesSiblings), not as one count over the whole tree.
- Actions.OfferedActionKeepsDepthsWithin: for child-in the bound is proved only for `max_depth` ≥ 1, because at 0 the top-level child-in breaks it (see Findings).
- Actions.OfferedActionDepths: for child-in the bound is proved only for `max_depth` ≥ 1, for the same reason.
- Editor.MenuEditor.MoveMenu: the depth bound for child-in is stated only for `max_depth` ≥ 1, for the same reason.

## Findings

| source | as written | input that shows it | evidently intended | confidence | as-written member | corrected member |
|---|---|---|---|---|---|---|
| src/jquery.wpmenu-editor.js:858 | the parent is the nearest predecessor whose depth differs, deeper ones included | depths 0,1,2,1 (menu A{B{C},D}): item D gets parent C, and A{B{C},D} reads back as A{B{C{D}}} | the nearest predecessor with a strictly smaller depth | not executed | ParentLookup.DiffersPicksDeeperPredecessor, Findings.SiblingAfterGrandchildSinks | ParentLookup.ParentOfIntended, RoundTrip.LoadThenCollectRoundTrips |
| src/jquery.wpmenu-editor.js:793-820 | the comparator reads `a.index`, which is never set, so it returns NaN and the stable sort keeps push order, which is descending position | menu A{B,C} reads back as A{C,B} | siblings in ascending position, as the comment at line 818 says | not executed | Collect.SubmenuReversesSiblings, Findings.SiblingsComeBackReversed | Collect.SubmenuKeepsSiblingOrder, RoundTrip.LoadThenCollectRoundTrips |
| src/jquery.wpmenu-editor.js:670-686 | a top-level item is offered child-in whenever a target exists, and `max_depth` is never compared | `max_depth` 0, two top-level items: the second is offered child-in, and pressing it leaves it at depth 1 | child-in hidden when `max_depth` leaves no room, as for nested items at line 661 | not executed | Findings.TopLevelChildInIgnoresMaxDepth | Restructure.ReconciledIntended, Actions.OfferedActionKeepsDepthsWithinIntended |
| src/jquery.wpmenu-editor.js:611-641 | item 0 gets up disabled but its down button is never reset | two items: moving the second up makes it first, yet its down stays disabled from when it was last | down disabled exactly for the last item, as line 636 does for the others | not executed | Findings.FirstItemKeepsDownDisabled | Restructure.ReconcileIntendedMoveFlags |
