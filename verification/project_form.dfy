/**
 * The state rules of the project edit form: which fields changed, the on-screen
 * status, temporary image ids, row counters, the saved project and the delete button.
 */
module ProjectForm {
  import opened Wrappers
  import opened Text
  import opened ProjectStatus

  datatype RowCounter = RowCounter(name: string, value: int)

  /** The fields of the project the form was opened with. */
  datatype InitialProject = InitialProject(
    name: string,
    madeFor: Option<string>,
    startDate: Option<string>,
    endDate: Option<string>,
    notes: Option<string>,
    needleSize: Option<string>,
    size: Option<string>,
    gauge: Option<string>,
    rowCounters: seq<RowCounter>,
    patternId: Option<nat>,
    imageIds: seq<UInt>)

  /** What the form currently shows; text fields start as the initial value or "". */
  datatype FormState = FormState(
    name: string,
    forWho: string,
    startDate: string,
    endDate: string,
    notes: string,
    needleSize: string,
    size: string,
    gauge: string,
    rowCounters: seq<RowCounter>,
    patternId: Option<nat>,
    imageKeys: set<UInt>)

  /** The form as it is first shown: nulls become empty texts. */
  function Opened(p: InitialProject, initialImageKeys: set<UInt>): FormState {
    FormState(p.name, p.madeFor.GetOr(""), p.startDate.GetOr(""), p.endDate.GetOr(""),
              p.notes.GetOr(""), p.needleSize.GetOr(""), p.size.GetOr(""), p.gauge.GetOr(""),
              p.rowCounters, p.patternId, initialImageKeys)
  }

  // ---------------------------------------------------------------------------
  // Change detection
  // ---------------------------------------------------------------------------

  /** The fields the form compares with the project it was opened with, in its order. */
  datatype Field = Name | ForWho | StartDate | EndDate | Notes | NeedleSize | Size | Gauge
                 | RowCounters | PatternId | Images

  /** Whether field `f` of the form differs from the project it was opened with. */
  predicate Differs(p: InitialProject, initialImageKeys: set<UInt>, s: FormState, f: Field) {
    match f
    case Name => s.name != p.name
    case ForWho => s.forWho != p.madeFor.GetOr("")
    case StartDate => s.startDate != p.startDate.GetOr("")
    case EndDate => s.endDate != p.endDate.GetOr("")
    case Notes => s.notes != p.notes.GetOr("")
    case NeedleSize => s.needleSize != p.needleSize.GetOr("")
    case Size => s.size != p.size.GetOr("")
    case Gauge => s.gauge != p.gauge.GetOr("")
    case RowCounters => s.rowCounters != p.rowCounters
    case PatternId => s.patternId != p.patternId
    case Images => s.imageKeys != initialImageKeys
  }

  /** The compared fields, in the order the form lists them. */
  const FieldOrder: seq<Field> :=
    [Name, ForWho, StartDate, EndDate, Notes, NeedleSize, Size, Gauge, RowCounters, PatternId, Images]

  /** The position of a field in the form's order. */
  function Rank(f: Field): (r: nat)
    ensures r < |FieldOrder| && FieldOrder[r] == f
  {
    match f
    case Name => 0
    case ForWho => 1
    case StartDate => 2
    case EndDate => 3
    case Notes => 4
    case NeedleSize => 5
    case Size => 6
    case Gauge => 7
    case RowCounters => 8
    case PatternId => 9
    case Images => 10
  }

  /** No field is listed twice: the field at a position has that position as its rank. */
  lemma RankOfOrder(i: nat)
    requires i < |FieldOrder|
    ensures Rank(FieldOrder[i]) == i
  {
    assert i in {0, 1, 2, 3, 4, 5, 6, 7, 8, 9, 10};
  }

  lemma EveryFieldListed(f: Field)
    ensures f in FieldOrder
  {
    match f
    case Name => assert FieldOrder[0] == f;
    case ForWho => assert FieldOrder[1] == f;
    case StartDate => assert FieldOrder[2] == f;
    case EndDate => assert FieldOrder[3] == f;
    case Notes => assert FieldOrder[4] == f;
    case NeedleSize => assert FieldOrder[5] == f;
    case Size => assert FieldOrder[6] == f;
    case Gauge => assert FieldOrder[7] == f;
    case RowCounters => assert FieldOrder[8] == f;
    case PatternId => assert FieldOrder[9] == f;
    case Images => assert FieldOrder[10] == f;
  }

  /** Some field differs exactly when the form is no longer as it was opened. */
  lemma SomeFieldDiffers(p: InitialProject, initialImageKeys: set<UInt>, s: FormState)
    ensures (exists f :: f in FieldOrder && Differs(p, initialImageKeys, s, f))
        <==> s != Opened(p, initialImageKeys)
  {
    if s != Opened(p, initialImageKeys) {
      var o := Opened(p, initialImageKeys);
      if s.name != o.name { assert Differs(p, initialImageKeys, s, Name); }
      else if s.forWho != o.forWho { assert Differs(p, initialImageKeys, s, ForWho); }
      else if s.startDate != o.startDate { assert Differs(p, initialImageKeys, s, StartDate); }
      else if s.endDate != o.endDate { assert Differs(p, initialImageKeys, s, EndDate); }
      else if s.notes != o.notes { assert Differs(p, initialImageKeys, s, Notes); }
      else if s.needleSize != o.needleSize { assert Differs(p, initialImageKeys, s, NeedleSize); }
      else if s.size != o.size { assert Differs(p, initialImageKeys, s, Size); }
      else if s.gauge != o.gauge { assert Differs(p, initialImageKeys, s, Gauge); }
      else if s.rowCounters != o.rowCounters { assert Differs(p, initialImageKeys, s, RowCounters); }
      else if s.patternId != o.patternId { assert Differs(p, initialImageKeys, s, PatternId); }
      else { assert Differs(p, initialImageKeys, s, Images); }
    }
  }

  /**
   * The fields whose current value differs from the initial one, a null initial text
   * comparing as "", each once and in the form's field order; the form has changes
   * exactly when this list is not empty.
   */
  method ChangedFields(p: InitialProject, initialImageKeys: set<UInt>, s: FormState)
    returns (changed: seq<Field>)
    ensures forall f :: f in changed <==> Differs(p, initialImageKeys, s, f)
    ensures forall i, j :: 0 <= i < j < |changed| ==> Rank(changed[i]) < Rank(changed[j])
    ensures |changed| > 0 <==> s != Opened(p, initialImageKeys)
  {
    changed := [];
    ghost var taken: seq<nat> := [];
    for i := 0 to |FieldOrder|
      invariant forall f :: f in changed <==> f in FieldOrder[..i] && Differs(p, initialImageKeys, s, f)
      invariant |taken| == |changed|
      invariant forall j :: 0 <= j < |taken| ==> taken[j] < i && Rank(changed[j]) == taken[j]
      invariant forall j, l :: 0 <= j < l < |taken| ==> taken[j] < taken[l]
    {
      var f := FieldOrder[i];
      if Differs(p, initialImageKeys, s, f) {
        RankOfOrder(i);
        changed := changed + [f];
        taken := taken + [i];
      }
      assert FieldOrder[..i + 1] == FieldOrder[..i] + [f];
    }
    assert FieldOrder[..|FieldOrder|] == FieldOrder;
    forall f ensures f in FieldOrder {
      EveryFieldListed(f);
    }
    NonEmptyIffChanged(p, initialImageKeys, s, changed);
  }

  /** A list holding exactly the differing fields is non-empty iff the form changed. */
  lemma NonEmptyIffChanged(p: InitialProject, initialImageKeys: set<UInt>, s: FormState, changed: seq<Field>)
    requires forall f :: f in changed <==> Differs(p, initialImageKeys, s, f)
    ensures |changed| > 0 <==> s != Opened(p, initialImageKeys)
  {
    SomeFieldDiffers(p, initialImageKeys, s);
    if s != Opened(p, initialImageKeys) {
      var f :| f in FieldOrder && Differs(p, initialImageKeys, s, f);
      assert f in changed;
    }
    if |changed| > 0 {
      assert changed[0] in changed;
      EveryFieldListed(changed[0]);
    }
  }

  // ---------------------------------------------------------------------------
  // On-screen status
  // ---------------------------------------------------------------------------

  /** The status line of the form as written: a blank end date shows FINISHED. */
  function FormStatusAsWritten(startDate: string, endDate: string): Status {
    if IsBlank(endDate) then Finished
    else if IsBlank(startDate) then InProgress
    else Planning
  }

  /**
   * The status line as written never agrees with the status the project has once
   * saved: the three cases are permuted.
   */
  lemma FormStatusAsWrittenAlwaysDisagrees(startDate: string, endDate: string)
    ensures FormStatusAsWritten(startDate, endDate)
         != StatusOf(BlankToNull(startDate), BlankToNull(endDate))
  {
  }

  /** A new project with no dates is shown as finished. */
  lemma FormStatusAsWrittenEmptyForm()
    ensures FormStatusAsWritten("", "") == Finished
    ensures StatusOf(None, None) == Planning
  {
  }

  /** The corrected status line: the status of the project the form would save. */
  function FormStatus(startDate: string, endDate: string): (r: Status)
    ensures r == Finished <==> !IsBlank(endDate)
    ensures r == InProgress <==> IsBlank(endDate) && !IsBlank(startDate)
    ensures r == Planning <==> IsBlank(endDate) && IsBlank(startDate)
  {
    StatusOf(BlankToNull(startDate), BlankToNull(endDate))
  }

  // ---------------------------------------------------------------------------
  // Temporary image ids (UInt arithmetic, wrapping at 2^32)
  // ---------------------------------------------------------------------------

  const UINT_MOD: nat := 0x1_0000_0000

  /** Kotlin's `UInt`. */
  type UInt = x: nat | x < UINT_MOD

  /** `x + 1u`, wrapping from the largest UInt to zero. */
  function UIntInc(x: UInt): (r: UInt)
    ensures x + 1 < UINT_MOD ==> r == x + 1
    ensures x + 1 == UINT_MOD ==> r == 0
  {
    if x + 1 == UINT_MOD then 0 else x + 1
  }

  function MaxOrZero(ids: seq<UInt>): (m: UInt)
    ensures forall i :: 0 <= i < |ids| ==> ids[i] <= m
    ensures ids == [] ==> m == 0
    ensures ids != [] ==> m in ids
  {
    if ids == [] then 0
    else
      var rest := MaxOrZero(ids[1..]);
      if ids[0] >= rest then ids[0] else rest
  }

  /**
   * `(imageIds.maxOrNull() ?: 0u) + 1u`: exceeds every initial id, except that when
   * the largest UInt is already in use the addition wraps to 0.
   */
  function FirstTempId(imageIds: seq<UInt>): (r: UInt)
    ensures MaxOrZero(imageIds) + 1 < UINT_MOD ==> forall i :: 0 <= i < |imageIds| ==> imageIds[i] < r
    ensures MaxOrZero(imageIds) + 1 == UINT_MOD ==> r == 0
    ensures imageIds == [] ==> r == 1
  {
    UIntInc(MaxOrZero(imageIds))
  }

  /** The images being edited and the next temporary id to hand out. */
  class ImageSession {
    var images: map<UInt, seq<bv8>>
    var nextTempId: UInt

    constructor (initialImages: map<UInt, seq<bv8>>, imageIds: seq<UInt>)
      ensures images == initialImages
      ensures nextTempId == FirstTempId(imageIds)
    {
      images := initialImages;
      nextTempId := FirstTempId(imageIds);
    }

    /** `val newId = nextTempId++; images[newId] = bytes`. */
    method AddImage(bytes: seq<bv8>) returns (id: UInt)
      modifies this
      ensures id == old(nextTempId)
      ensures nextTempId == UIntInc(old(nextTempId))
      ensures images == old(images)[id := bytes]
    {
      id := nextTempId;
      nextTempId := UIntInc(nextTempId);
      images := images[id := bytes];
    }

    /**
     * The image picker adds the picked images one by one, in order: exactly the handed-out
     * ids are added as keys. Until the UInt counter wraps, they get consecutive, strictly
     * increasing ids and each holds its own picked image.
     */
    method AddImages(picked: seq<seq<bv8>>) returns (ids: seq<UInt>)
      modifies this
      ensures |ids| == |picked|
      ensures images.Keys == old(images).Keys + (set id | id in ids)
      ensures forall k :: 0 <= k < |ids| ==> ids[k] in images && images[ids[k]] in picked
      ensures old(nextTempId) + |picked| < UINT_MOD ==>
        nextTempId == old(nextTempId) + |picked| &&
        forall k :: 0 <= k < |ids| ==> ids[k] == old(nextTempId) + k && images[ids[k]] == picked[k]
      ensures forall key :: key in old(images) && key !in ids ==> images[key] == old(images)[key]
    {
      ids := [];
      var start := nextTempId;
      for k := 0 to |picked|
        invariant |ids| == k
        invariant images.Keys == old(images).Keys + (set id | id in ids)
        invariant start + k < UINT_MOD ==>
          nextTempId == start + k && forall j :: 0 <= j < k ==> ids[j] == start + j && images[ids[j]] == picked[j]
        invariant forall j :: 0 <= j < k ==> ids[j] in images && images[ids[j]] in picked
        invariant forall key :: key in old(images) && key !in ids ==> key in images && images[key] == old(images)[key]
      {
        var id := AddImage(picked[k]);
        assert (set x | x in ids + [id]) == (set x | x in ids) + {id};
        ids := ids + [id];
      }
    }
  }

  /** While no UInt wrap occurs, every id handed out after opening exceeds every initial id. */
  lemma TempIdsExceedInitial(imageIds: seq<UInt>, k: nat)
    requires MaxOrZero(imageIds) + 1 + k < UINT_MOD
    ensures forall i :: 0 <= i < |imageIds| ==> imageIds[i] < FirstTempId(imageIds) + k
  {
  }

  // ---------------------------------------------------------------------------
  // Row counters
  // ---------------------------------------------------------------------------

  /** The - and + buttons: only the counter at `index` moves, by exactly one, with no lower bound. */
  function StepCounter(counters: seq<RowCounter>, index: nat, up: bool): (r: seq<RowCounter>)
    requires index < |counters|
    ensures |r| == |counters|
    ensures r[index].name == counters[index].name
    ensures r[index].value == counters[index].value + (if up then 1 else -1)
    ensures forall j :: 0 <= j < |r| && j != index ==> r[j] == counters[j]
  {
    var c := counters[index];
    counters[index := c.(value := if up then c.value + 1 else c.value - 1)]
  }

  /** The add-counter dialog appends a counter at zero; a blank name falls back to the default name. */
  function AddCounter(counters: seq<RowCounter>, dialogName: string, defaultName: string): (r: seq<RowCounter>)
    ensures |r| == |counters| + 1 && r[..|counters|] == counters
    ensures r[|counters|].value == 0
    ensures r[|counters|].name == if IsBlank(dialogName) then defaultName else dialogName
  {
    counters + [RowCounter(if IsBlank(dialogName) then defaultName else dialogName, 0)]
  }

  // ---------------------------------------------------------------------------
  // Saving and deleting
  // ---------------------------------------------------------------------------

  /** `images.keys.toList()`: every image key once, in the map's iteration order. */
  ghost predicate ListsKeys(ids: seq<UInt>, keys: set<UInt>) {
    (forall x :: x in ids <==> x in keys)
    && forall i, j :: 0 <= i < j < |ids| ==> ids[i] != ids[j]
  }

  /**
   * The project handed to `onSave`: blank texts become null, the name is kept verbatim,
   * and the image ids are the form's image keys, each once.
   */
  function SavedProject(s: FormState, finalImageIds: seq<UInt>): (r: InitialProject)
    requires ListsKeys(finalImageIds, s.imageKeys)
    ensures r.name == s.name && r.rowCounters == s.rowCounters && r.patternId == s.patternId
    ensures r.madeFor == BlankToNull(s.forWho) && r.startDate == BlankToNull(s.startDate)
    ensures r.endDate == BlankToNull(s.endDate) && r.notes == BlankToNull(s.notes)
    ensures r.needleSize == BlankToNull(s.needleSize) && r.size == BlankToNull(s.size)
    ensures r.gauge == BlankToNull(s.gauge)
    ensures r.imageIds == finalImageIds
    ensures forall x :: x in r.imageIds <==> x in s.imageKeys
    ensures |r.imageIds| == |s.imageKeys|
  {
    KeysListLength(finalImageIds, s.imageKeys);
    InitialProject(s.name, BlankToNull(s.forWho), BlankToNull(s.startDate), BlankToNull(s.endDate),
                   BlankToNull(s.notes), BlankToNull(s.needleSize), BlankToNull(s.size),
                   BlankToNull(s.gauge), s.rowCounters, s.patternId, finalImageIds)
  }

  /** The corrected on-screen status is the status of the project that saving stores. */
  lemma FormStatusMatchesSaved(s: FormState, finalImageIds: seq<UInt>)
    requires ListsKeys(finalImageIds, s.imageKeys)
    ensures FormStatus(s.startDate, s.endDate)
         == StatusOf(SavedProject(s, finalImageIds).startDate, SavedProject(s, finalImageIds).endDate)
  {
  }

  /** A list of distinct keys that covers a set has one element per key. */
  lemma {:induction false} KeysListLength(ids: seq<UInt>, keys: set<UInt>)
    requires ListsKeys(ids, keys)
    ensures |ids| == |keys|
    decreases |ids|
  {
    if ids != [] {
      var x := ids[0];
      var rest := ids[1..];
      assert ListsKeys(rest, keys - {x}) by {
        forall y ensures y in rest <==> y in keys - {x} {
          if y in rest {
            var i :| 0 <= i < |rest| && rest[i] == y;
            assert ids[i + 1] == y && ids[0] != ids[i + 1];
          }
          if y in keys - {x} {
            assert y in ids;
            var i :| 0 <= i < |ids| && ids[i] == y;
            assert i != 0;
            assert rest[i - 1] == y;
          }
        }
        forall i, j | 0 <= i < j < |rest| ensures rest[i] != rest[j] {
          assert rest[i] == ids[i + 1] && rest[j] == ids[j + 1];
        }
      }
      KeysListLength(rest, keys - {x});
      assert x in keys;
    } else {
      assert keys == {};
    }
  }

  datatype DeleteDialog = RestrictionDialog | ConfirmDeleteDialog

  /** Delete opens the restriction dialog whenever the project still has assignments. */
  function DeleteClicked(assignmentCount: nat): (r: DeleteDialog)
    ensures r == RestrictionDialog <==> assignmentCount > 0
  {
    if assignmentCount > 0 then RestrictionDialog else ConfirmDeleteDialog
  }
}
