/**
 * The screen that assigns yarn amounts to one project: a map from yarn id to grams,
 * edited one yarn at a time, filtered on save, with assigned yarns listed first.
 */
module ProjectAssignments {
  import opened Wrappers
  import opened Text
  import opened Sorting
  import opened Lists

  /** `coerceIn` was called with an empty range. */
  datatype CoerceError = EmptyRange(minimum: int, maximum: int)

  /** `value.coerceIn(0, max)`: throws when `max < 0`. */
  function CoerceIn(value: int, minimum: int, maximum: int): (r: Result<int, CoerceError>)
    ensures r.Err? <==> maximum < minimum
    ensures r.Ok? ==> minimum <= r.value <= maximum
    ensures r.Ok? && minimum <= value <= maximum ==> r.value == value
    ensures r.Ok? && value < minimum ==> r.value == minimum
    ensures r.Ok? && value > maximum ==> r.value == maximum
  {
    if maximum < minimum then Err(EmptyRange(minimum, maximum))
    else if value < minimum then Ok(minimum)
    else if value > maximum then Ok(maximum)
    else Ok(value)
  }

  /**
   * The new map after typing `text` into the field of `yarnId`: a number is stored
   * clamped to `[0, max]`, anything else removes the entry; other yarns keep theirs.
   */
  function EditMap(m: map<nat, int>, yarnId: nat, text: string, max: int)
    : (r: Result<map<nat, int>, CoerceError>)
    ensures r.Err? <==> ParseInt(text).Some? && max < 0
    ensures r.Ok? && ParseInt(text).Some? ==>
      yarnId in r.value && 0 <= r.value[yarnId] <= max
    ensures r.Ok? && ParseInt(text).Some? ==> r.value[yarnId] == CoerceIn(ParseInt(text).value, 0, max).value
    ensures r.Ok? && ParseInt(text).None? ==> yarnId !in r.value
    ensures r.Ok? ==> forall k :: k != yarnId ==>
      (k in r.value <==> k in m) && (k in m ==> r.value[k] == m[k])
  {
    match ParseInt(text)
    case None => Ok(m - {yarnId})
    case Some(v) =>
      match CoerceIn(v, 0, max)
      case Err(e) => Err(e)
      case Ok(c) => Ok(m[yarnId := c])
  }

  /** Typing the stored amount back in (a value the clamp keeps) leaves the map as it is. */
  lemma RetypingIsNoChange(m: map<nat, int>, yarnId: nat, max: int)
    requires yarnId in m && 0 <= m[yarnId] <= max && IsInt32(m[yarnId])
    ensures EditMap(m, yarnId, FormatInt(m[yarnId]), max) == Ok(m)
  {
    FormatParse(m[yarnId]);
    assert m[yarnId := m[yarnId]] == m;
  }

  /** `filterValues { it > 0 }`: exactly the entries with a positive amount. */
  function SaveFilter(m: map<nat, int>): (r: map<nat, int>)
    ensures forall k :: k in r <==> k in m && m[k] > 0
    ensures forall k :: k in r ==> r[k] == m[k]
  {
    map k | k in m && m[k] > 0 :: m[k]
  }

  /** Saving twice saves the same map. */
  lemma SaveFilterIdempotent(m: map<nat, int>)
    ensures SaveFilter(SaveFilter(m)) == SaveFilter(m)
  {
  }

  /** The screen's editable state. */
  class AssignmentEditor {
    const initial: map<nat, int>
    var current: map<nat, int>

    constructor (initialAssignments: map<nat, int>)
      ensures initial == initialAssignments && current == initialAssignments
    {
      initial := initialAssignments;
      current := initialAssignments;
    }

    /**
     * `currentAssignments != initialAssignments`: some yarn has gained, lost or changed
     * its amount since the screen opened.
     */
    predicate HasChanges(): (r: bool)
      reads this
      ensures r <==>
        exists k :: k in current.Keys + initial.Keys && (k !in current || k !in initial || current[k] != initial[k])
    {
      assert (forall k :: k in current.Keys + initial.Keys ==> k in current && k in initial && current[k] == initial[k])
        ==> current == initial;
      current != initial
    }

    /**
     * `onValueChange` of a yarn's amount field. When `coerceIn` throws, the map is
     * left as it was and the error is returned.
     */
    method Edit(yarnId: nat, text: string, max: int) returns (outcome: Result<(), CoerceError>)
      modifies this
      ensures outcome.Err? <==> EditMap(old(current), yarnId, text, max).Err?
      ensures EditMap(old(current), yarnId, text, max).Ok? ==>
        current == EditMap(old(current), yarnId, text, max).value
      ensures EditMap(old(current), yarnId, text, max).Err? ==> current == old(current)
    {
      var copy := current;
      match EditMap(copy, yarnId, text, max)
      case Err(e) =>
        outcome := Err(e);
      case Ok(m) =>
        current := m;
        outcome := Ok(());
    }

    /** The map handed to `onSave`. */
    function Saved(): (r: map<nat, int>)
      reads this
      ensures forall k :: k in r <==> k in current && current[k] > 0
    {
      SaveFilter(current)
    }
  }

  // ---------------------------------------------------------------------------
  // Assigned-first ordering
  // ---------------------------------------------------------------------------

  predicate Assigned(initial: map<nat, int>, yarnId: nat) {
    yarnId in initial && initial[yarnId] > 0
  }

  /** `sortedByDescending { (initial[id] ?: 0) > 0 }`: `true` sorts before `false`. */
  function AssignedBefore(initial: map<nat, int>): (nat, nat) -> bool {
    (a: nat, b: nat) => Assigned(initial, a) || !Assigned(initial, b)
  }

  function AssignedFirst(yarnIds: seq<nat>, initial: map<nat, int>): seq<nat> {
    StableSort(yarnIds, AssignedBefore(initial))
  }

  function AssignedIs(initial: map<nat, int>, wanted: bool): nat -> bool {
    (y: nat) => Assigned(initial, y) == wanted
  }

  /** Inserting an unassigned yarn puts it after every assigned one and before the rest. */
  lemma {:induction false} InsertUnassigned(x: nat, a: seq<nat>, n: seq<nat>, initial: map<nat, int>)
    requires !Assigned(initial, x)
    requires forall i :: 0 <= i < |a| ==> Assigned(initial, a[i])
    requires forall i :: 0 <= i < |n| ==> !Assigned(initial, n[i])
    ensures Insert(x, a + n, AssignedBefore(initial)) == a + [x] + n
  {
    if a != [] {
      InsertUnassigned(x, a[1..], n, initial);
      assert (a + n)[0] == a[0];
      assert (a + n)[1..] == a[1..] + n;
      assert [a[0]] + (a[1..] + [x] + n) == a + [x] + n;
    }
  }

  /** An assigned yarn is inserted in front. */
  lemma InsertAssigned(x: nat, s: seq<nat>, initial: map<nat, int>)
    requires Assigned(initial, x)
    ensures Insert(x, s, AssignedBefore(initial)) == [x] + s
  {
    if s != [] {
      assert AssignedBefore(initial)(x, s[0]);
    }
  }

  /**
   * The ordered list is the initially assigned yarns in their original order,
   * followed by all the others in their original order.
   */
  lemma {:induction false} AssignedFirstSplits(yarnIds: seq<nat>, initial: map<nat, int>)
    ensures AssignedFirst(yarnIds, initial)
         == Filter(yarnIds, AssignedIs(initial, true)) + Filter(yarnIds, AssignedIs(initial, false))
  {
    if yarnIds != [] {
      AssignedFirstSplits(yarnIds[1..], initial);
      assert yarnIds == [yarnIds[0]] + yarnIds[1..];
      SplitsStep(yarnIds[0], yarnIds[1..], initial);
    }
  }

  /** The inductive step: one more yarn in front of a list that already splits. */
  lemma SplitsStep(x: nat, rest: seq<nat>, initial: map<nat, int>)
    requires AssignedFirst(rest, initial)
          == Filter(rest, AssignedIs(initial, true)) + Filter(rest, AssignedIs(initial, false))
    ensures AssignedFirst([x] + rest, initial)
         == Filter([x] + rest, AssignedIs(initial, true)) + Filter([x] + rest, AssignedIs(initial, false))
  {
    var s := [x] + rest;
    assert s[0] == x && s[1..] == rest;
    var a := Filter(rest, AssignedIs(initial, true));
    var n := Filter(rest, AssignedIs(initial, false));
    assert AssignedFirst(s, initial) == Insert(x, a + n, AssignedBefore(initial));
    if Assigned(initial, x) {
      assert Filter(s, AssignedIs(initial, true)) == [x] + a;
      assert Filter(s, AssignedIs(initial, false)) == n;
      StepAssigned(x, a, n, initial);
    } else {
      assert Filter(s, AssignedIs(initial, true)) == a;
      assert Filter(s, AssignedIs(initial, false)) == [x] + n;
      StepUnassigned(x, a, n, initial);
    }
  }

  lemma StepAssigned(x: nat, a: seq<nat>, n: seq<nat>, initial: map<nat, int>)
    requires Assigned(initial, x)
    ensures Insert(x, a + n, AssignedBefore(initial)) == ([x] + a) + n
  {
    InsertAssigned(x, a + n, initial);
    assert [x] + (a + n) == ([x] + a) + n;
  }

  lemma StepUnassigned(x: nat, a: seq<nat>, n: seq<nat>, initial: map<nat, int>)
    requires !Assigned(initial, x)
    requires forall i :: 0 <= i < |a| ==> AssignedIs(initial, true)(a[i])
    requires forall i :: 0 <= i < |n| ==> AssignedIs(initial, false)(n[i])
    ensures Insert(x, a + n, AssignedBefore(initial)) == a + ([x] + n)
  {
    InsertUnassigned(x, a, n, initial);
    assert a + [x] + n == a + ([x] + n);
  }
}
