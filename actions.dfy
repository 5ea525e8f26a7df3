/**
 * The edit actions of `_moveMenu` and the drop reported by the drag-and-drop
 * list, as the change each makes to the list before the reconcile pass that
 * always follows it.
 */
module Actions {
  import opened MenuTypes
  import opened Restructure

  /** The `data-act` values of an item's action buttons (`cancel` only closes the panel). */
  datatype Action = Up | Down | ChildIn | ChildOut | Remove

  /** `parseInt` of the depth variable as `_moveMenu` reads it: absent or negative counts as 0. */
  function MoveDepth(d: int): (r: nat)
    ensures d >= 0 ==> r == d
    ensures d < 0 ==> r == 0
  {
    if d < 0 then 0 else d
  }

  /**
   * The list after the action's own change, or None when an up/down target is
   * out of range (the action then returns false and nothing else happens).
   */
  function Applied(s: seq<Item>, i: nat, a: Action): Option<seq<Item>>
    requires i < |s|
  {
    match a
    case Up => if i == 0 then None else Some(s[i - 1 := s[i]][i := s[i - 1]])
    case Down => if i + 1 >= |s| then None else Some(s[i := s[i + 1]][i + 1 := s[i]])
    case ChildIn => Some(s[i := s[i].(depth := MoveDepth(s[i].depth) + 1)])
    case ChildOut => Some(s[i := s[i].(depth := MoveDepth(s[i].depth) - 1)])
    case Remove => Some(s[..i] + s[i + 1..])
  }

  /** A drop: the item at `from` is taken out and put back at position `to`. */
  function MovedTo(s: seq<Item>, from: nat, to: nat): (r: seq<Item>)
    requires from < |s| && to < |s|
    ensures |r| == |s|
  {
    var rest := s[..from] + s[from + 1..];
    rest[..to] + [s[from]] + rest[to..]
  }

  /**
   * Up is refused only for the first item; otherwise it exchanges the item
   * with its predecessor, each keeping its own record (depth included), and
   * moving the item back down restores the list.
   */
  lemma {:induction false} UpSwapsWithPredecessor(s: seq<Item>, i: nat)
    requires i < |s|
    ensures Applied(s, i, Up).None? <==> i == 0
    ensures Applied(s, i, Up).Some? ==>
      var r := Applied(s, i, Up).value;
      |r| == |s| && r[i - 1] == s[i] && r[i] == s[i - 1] &&
      (forall k :: 0 <= k < |s| && k != i - 1 && k != i ==> r[k] == s[k]) &&
      Applied(r, i - 1, Down) == Some(s)
  {
    if i > 0 {
      var r := Applied(s, i, Up).value;
      assert r[i - 1 := r[i]][i := r[i - 1]] == s;
    }
  }

  /** Down is refused only for the last item; otherwise it exchanges the item with its successor. */
  lemma {:induction false} DownSwapsWithSuccessor(s: seq<Item>, i: nat)
    requires i < |s|
    ensures Applied(s, i, Down).None? <==> i == |s| - 1
    ensures Applied(s, i, Down).Some? ==>
      var r := Applied(s, i, Down).value;
      |r| == |s| && r[i] == s[i + 1] && r[i + 1] == s[i] &&
      (forall k :: 0 <= k < |s| && k != i && k != i + 1 ==> r[k] == s[k]) &&
      Applied(r, i + 1, Up) == Some(s)
  {
    if i + 1 < |s| {
      var r := Applied(s, i, Down).value;
      assert r[i + 1 - 1 := r[i + 1]][i + 1 := r[i + 1 - 1]] == s;
    }
  }

  /**
   * Child-in adds exactly one to the item's depth and child-out takes exactly
   * one away, with no clamp against `max_depth`; nothing else in the list
   * changes, and on a non-negative depth child-out undoes child-in.
   */
  lemma {:induction false} ChildActionsShiftDepthByOne(s: seq<Item>, i: nat)
    requires i < |s| && s[i].depth >= 0
    ensures var r := Applied(s, i, ChildIn).value;
      |r| == |s| && r[i] == s[i].(depth := s[i].depth + 1) &&
      (forall k :: 0 <= k < |s| && k != i ==> r[k] == s[k]) &&
      Applied(r, i, ChildOut) == Some(s)
    ensures var r := Applied(s, i, ChildOut).value;
      |r| == |s| && r[i] == s[i].(depth := s[i].depth - 1) &&
      (forall k :: 0 <= k < |s| && k != i ==> r[k] == s[k])
  {
    var r := Applied(s, i, ChildIn).value;
    assert Applied(r, i, ChildOut).value == s;
  }

  /** Remove deletes exactly that item and keeps the others in order. */
  lemma {:induction false} RemoveDeletesItem(s: seq<Item>, i: nat)
    requires i < |s|
    ensures var r := Applied(s, i, Remove).value;
      |r| == |s| - 1 &&
      (forall k :: 0 <= k < i ==> r[k] == s[k]) &&
      (forall k :: i <= k < |r| ==> r[k] == s[k + 1]) &&
      multiset(r) + multiset{s[i]} == multiset(s)
  {
    assert s == s[..i] + [s[i]] + s[i + 1..];
  }

  /** A drop is a permutation of the list, and dropping back undoes it. */
  lemma {:induction false} DropPermutes(s: seq<Item>, from: nat, to: nat)
    requires from < |s| && to < |s|
    ensures multiset(MovedTo(s, from, to)) == multiset(s)
    ensures MovedTo(s, from, to)[to] == s[from]
    ensures MovedTo(MovedTo(s, from, to), to, from) == s
  {
    DropKeepsMultiset(s, from, to);
    DropUndone(s, from, to);
  }

  lemma {:induction false} DropKeepsMultiset(s: seq<Item>, from: nat, to: nat)
    requires from < |s| && to < |s|
    ensures multiset(MovedTo(s, from, to)) == multiset(s)
  {
    var rest := s[..from] + s[from + 1..];
    assert s == s[..from] + [s[from]] + s[from + 1..];
    assert rest == rest[..to] + rest[to..];
    calc {
      multiset(MovedTo(s, from, to));
      multiset(rest[..to]) + multiset{s[from]} + multiset(rest[to..]);
      multiset(rest) + multiset{s[from]};
      multiset(s);
    }
  }

  lemma {:induction false} DropUndone(s: seq<Item>, from: nat, to: nat)
    requires from < |s| && to < |s|
    ensures MovedTo(s, from, to)[to] == s[from]
    ensures MovedTo(MovedTo(s, from, to), to, from) == s
  {
    var rest := s[..from] + s[from + 1..];
    var r := MovedTo(s, from, to);
    assert r == rest[..to] + [s[from]] + rest[to..];
    assert r[..to] + r[to + 1..] == rest;
    assert s == rest[..from] + [s[from]] + rest[from..];
  }

  /** An action button the user can actually press (the last reconcile left it enabled or shown). */
  predicate Offered(it: Item, a: Action) {
    match a
    case Up => !it.upDisabled
    case Down => !it.downDisabled
    case ChildIn => it.childInShown
    case ChildOut => it.childOutShown
    case Remove => true
  }

  predicate DepthsWithin(s: seq<Item>, maxDepth: int) {
    forall k :: 0 <= k < |s| ==> 0 <= s[k].depth <= maxDepth
  }

  /** What the last reconcile guarantees about a shown child-in or child-out button. */
  lemma {:induction false} ShownChildActionBounds(s: seq<Item>, maxDepth: int, i: nat)
    requires Reconciled(s, maxDepth) == s && i < |s|
    ensures s[i].childInShown ==> s[i].depth == 0 || maxDepth > s[i].depth
    ensures s[i].childOutShown ==> s[i].depth != 0
  {
    var ds := ZeroFirst(Depths(s));
    assert s[i] == RestructuredItem(ds, i, s[i], maxDepth);
    assert i > 0 ==> ds[i] == s[i].depth;
  }

  /**
   * Pressing an offered button on a reconciled list whose depths lie in
   * [0, max_depth] and reconciling again keeps every depth in that range:
   * `max_depth` is enforced by hiding child-in, never by clamping.
   */
  lemma {:induction false} OfferedActionKeepsDepthsWithin(s: seq<Item>, maxDepth: int, i: nat, a: Action)
    requires a == ChildIn ==> maxDepth >= 1
    requires Reconciled(s, maxDepth) == s
    requires i < |s| && DepthsWithin(s, maxDepth) && Offered(s[i], a)
    ensures Applied(s, i, a).Some? ==> DepthsWithin(Reconciled(Applied(s, i, a).value, maxDepth), maxDepth)
  {
    assert 0 <= s[i].depth <= maxDepth;
    if Applied(s, i, a).Some? {
      OfferedActionDepths(s, maxDepth, i, a);
      ReconcileKeepsDepthsWithin(Applied(s, i, a).value, maxDepth);
    }
  }

  /** The action's own change keeps every depth in [0, max_depth]. */
  lemma {:induction false} OfferedActionDepths(s: seq<Item>, maxDepth: int, i: nat, a: Action)
    requires a == ChildIn ==> maxDepth >= 1
    requires Reconciled(s, maxDepth) == s
    requires i < |s| && DepthsWithin(s, maxDepth) && Offered(s[i], a)
    ensures Applied(s, i, a).Some? ==> DepthsWithin(Applied(s, i, a).value, maxDepth)
  {
    match a
    case Up => MoveKeepsDepthsWithin(s, maxDepth, i, a);
    case Down => MoveKeepsDepthsWithin(s, maxDepth, i, a);
    case Remove => MoveKeepsDepthsWithin(s, maxDepth, i, a);
    case ChildIn =>
      ShownChildActionBounds(s, maxDepth, i);
      ShiftKeepsDepthsWithin(s, maxDepth, i, a);
    case ChildOut =>
      ShownChildActionBounds(s, maxDepth, i);
      ShiftKeepsDepthsWithin(s, maxDepth, i, a);
  }

  /** Moving or removing items keeps every depth in [0, max_depth]. */
  lemma {:induction false} MoveKeepsDepthsWithin(s: seq<Item>, maxDepth: int, i: nat, a: Action)
    requires i < |s| && DepthsWithin(s, maxDepth) && (a == Up || a == Down || a == Remove)
    ensures Applied(s, i, a).Some? ==> DepthsWithin(Applied(s, i, a).value, maxDepth)
  {
    if Applied(s, i, a).Some? {
      var t := Applied(s, i, a).value;
      forall k | 0 <= k < |t| ensures 0 <= t[k].depth <= maxDepth {
        if a == Remove {
          assert t[k] == if k < i then s[k] else s[k + 1];
        }
      }
    }
  }

  /** Child-in below `max_depth` and child-out above 0 keep every depth in [0, max_depth]. */
  lemma {:induction false} ShiftKeepsDepthsWithin(s: seq<Item>, maxDepth: int, i: nat, a: Action)
    requires i < |s| && DepthsWithin(s, maxDepth) && (a == ChildIn || a == ChildOut)
    requires a == ChildIn ==> s[i].depth + 1 <= maxDepth
    requires a == ChildOut ==> s[i].depth >= 1
    ensures DepthsWithin(Applied(s, i, a).value, maxDepth)
  {
  }

  /** A reconcile pass keeps every depth in [0, max_depth]: it only clears the first. */
  lemma {:induction false} ReconcileKeepsDepthsWithin(t: seq<Item>, maxDepth: int)
    requires maxDepth >= 0 && DepthsWithin(t, maxDepth)
    ensures DepthsWithin(Reconciled(t, maxDepth), maxDepth)
  {
    ReconcileKeepsItems(t, maxDepth);
    var r := Reconciled(t, maxDepth);
    forall k | 0 <= k < |r| ensures 0 <= r[k].depth <= maxDepth {
      assert r[k].depth == Depths(r)[k];
      assert t[k].depth == Depths(t)[k];
    }
  }

  /**
   * With the corrected reconcile pass the depth bound holds for every
   * `max_depth`, 0 included: a reconciled list whose depths lie in
   * [0, max_depth] stays so after any offered action and the next pass.
   */
  lemma {:induction false} OfferedActionKeepsDepthsWithinIntended(s: seq<Item>, maxDepth: int, i: nat, a: Action)
    requires ReconciledIntended(s, maxDepth) == s
    requires i < |s| && DepthsWithin(s, maxDepth) && Offered(s[i], a)
    ensures Applied(s, i, a).Some? ==> DepthsWithin(ReconciledIntended(Applied(s, i, a).value, maxDepth), maxDepth)
  {
    if Applied(s, i, a).Some? {
      OfferedActionDepthsIntended(s, maxDepth, i, a);
      ReconcileIntendedKeepsDepthsWithin(Applied(s, i, a).value, maxDepth);
    }
  }

  /** The action's own change keeps every depth in [0, max_depth] under the corrected pass. */
  lemma {:induction false} OfferedActionDepthsIntended(s: seq<Item>, maxDepth: int, i: nat, a: Action)
    requires ReconciledIntended(s, maxDepth) == s
    requires i < |s| && DepthsWithin(s, maxDepth) && Offered(s[i], a)
    ensures maxDepth >= 0
    ensures Applied(s, i, a).Some? ==> DepthsWithin(Applied(s, i, a).value, maxDepth)
  {
    assert 0 <= s[i].depth <= maxDepth;
    match a
    case Up => MoveKeepsDepthsWithin(s, maxDepth, i, a);
    case Down => MoveKeepsDepthsWithin(s, maxDepth, i, a);
    case Remove => MoveKeepsDepthsWithin(s, maxDepth, i, a);
    case ChildIn =>
      IntendedChildActionBounds(s, maxDepth, i);
      ShiftKeepsDepthsWithin(s, maxDepth, i, a);
    case ChildOut =>
      IntendedChildActionBounds(s, maxDepth, i);
      ShiftKeepsDepthsWithin(s, maxDepth, i, a);
  }

  /** The corrected pass keeps every depth in [0, max_depth] too. */
  lemma {:induction false} ReconcileIntendedKeepsDepthsWithin(t: seq<Item>, maxDepth: int)
    requires maxDepth >= 0 && DepthsWithin(t, maxDepth)
    ensures DepthsWithin(ReconciledIntended(t, maxDepth), maxDepth)
  {
    ReconcileIntendedKeepsItems(t, maxDepth);
    var r := ReconciledIntended(t, maxDepth);
    forall k | 0 <= k < |r| ensures 0 <= r[k].depth <= maxDepth {
      assert r[k].depth == Depths(r)[k];
      assert t[k].depth == Depths(t)[k];
    }
  }
}
