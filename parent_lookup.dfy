/**
 * `_findParentMenuOf`: the backward scan that derives an item's parent from
 * the depth column alone. The scan as written accepts the first predecessor
 * whose depth DIFFERS from the item's; the parent the editor evidently means is
 * the nearest predecessor with a strictly SMALLER depth. Both rules share the
 * scan and its step cap.
 */
module ParentLookup {
  import opened MenuTypes

  /** Which predecessor the backward scan stops at. */
  datatype Rule = DepthDiffers | DepthSmaller

  predicate Accepts(rule: Rule, candidate: int, depth: int) {
    match rule
    case DepthDiffers => candidate != depth
    case DepthSmaller => candidate < depth
  }

  /** Position `j` is one of the `MaxStep - 1` predecessors the scan from `i` may inspect. */
  predicate InWindow(i: nat, j: int) {
    0 <= j < i && i - j < MaxStep
  }

  /**
   * The scan from the `step`-th predecessor of `i` onward: stop with the first
   * accepted candidate, give up at the start of the list ("lost it") or once the
   * step counter reaches `MaxStep`.
   */
  function Scan(ds: seq<int>, i: nat, step: nat, rule: Rule): (r: Option<nat>)
    requires i < |ds|
    requires 1 <= step < MaxStep
    decreases MaxStep - step
    ensures r.Some? ==> r.value + step <= i && InWindow(i, r.value) && Accepts(rule, ds[r.value], ds[i])
    ensures r.Some? ==> forall k :: r.value < k <= i - step ==> !Accepts(rule, ds[k], ds[i])
    ensures r.None? ==> forall k :: InWindow(i, k) && k <= i - step ==> !Accepts(rule, ds[k], ds[i])
  {
    if step > i then None
    else if Accepts(rule, ds[i - step], ds[i]) then Some(i - step)
    else if step + 1 >= MaxStep then None
    else Scan(ds, i, step + 1, rule)
  }

  function Lookup(ds: seq<int>, i: nat, rule: Rule): Option<nat>
    requires i < |ds|
  {
    if ds[i] == 0 then None else Scan(ds, i, 1, rule)
  }

  /**
   * The lookup as the editor performs it: none for a top-level item; otherwise
   * the nearest of the inspected predecessors whose depth differs from the
   * item's (deeper ones included), none when no inspected predecessor differs.
   */
  function ParentOf(ds: seq<int>, i: nat): (r: Option<nat>)
    requires i < |ds|
    ensures ds[i] == 0 ==> r == None
    ensures r.Some? ==> InWindow(i, r.value) && ds[r.value] != ds[i]
    ensures r.Some? ==> forall k :: r.value < k < i ==> ds[k] == ds[i]
    ensures r.None? && ds[i] != 0 ==> forall k :: InWindow(i, k) ==> ds[k] == ds[i]
  {
    Lookup(ds, i, DepthDiffers)
  }

  /**
   * The corrected lookup: the nearest inspected predecessor whose depth is
   * strictly smaller than the item's.
   */
  function ParentOfIntended(ds: seq<int>, i: nat): (r: Option<nat>)
    requires i < |ds|
    ensures ds[i] == 0 ==> r == None
    ensures r.Some? ==> InWindow(i, r.value) && ds[r.value] < ds[i]
    ensures r.Some? ==> forall k :: r.value < k < i ==> ds[k] >= ds[i]
    ensures r.None? && ds[i] != 0 ==> forall k :: InWindow(i, k) ==> ds[k] >= ds[i]
  {
    Lookup(ds, i, DepthSmaller)
  }

  lemma {:induction false} WindowCoversShortPrefix(i: nat, j: int)
    requires i < MaxStep && 0 <= j < i
    ensures InWindow(i, j)
  {
  }

  /**
   * With fewer than `MaxStep` predecessors the step cap never bites: a nested
   * item's lookup finds the nearest accepted predecessor in the whole prefix,
   * and finds none exactly when no predecessor at all is accepted.
   */
  lemma {:induction false} LookupWithinShortPrefix(ds: seq<int>, i: nat, rule: Rule)
    requires i < |ds| && i < MaxStep
    ensures Lookup(ds, i, rule).None? <==>
      ds[i] == 0 || forall k :: 0 <= k < i ==> !Accepts(rule, ds[k], ds[i])
    ensures Lookup(ds, i, rule).Some? ==>
      var p := Lookup(ds, i, rule).value;
      p < i && Accepts(rule, ds[p], ds[i]) && forall k :: p < k < i ==> !Accepts(rule, ds[k], ds[i])
  {
    if ds[i] != 0 {
      forall k | 0 <= k < i
        ensures InWindow(i, k)
      {
        WindowCoversShortPrefix(i, k);
      }
    }
  }

  /**
   * Depths 0, 1, 2, 1: the last item's parent is item 2 (depth 2, a sibling's
   * child) under the rule as written, item 0 under the corrected rule.
   */
  lemma {:induction false} DiffersPicksDeeperPredecessor()
    ensures ParentOf([0, 1, 2, 1], 3) == Some(2)
    ensures ParentOfIntended([0, 1, 2, 1], 3) == Some(0)
  {
  }
}
