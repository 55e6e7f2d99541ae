/**
 * The imperative data layer: yarns, projects, patterns and assignments held in mutable
 * lists, validated on load, soft-deleted with a cascade, and given random ids that avoid
 * every id already in the list.
 */
module DataManager {
  import opened Wrappers
  import opened Text
  import opened Lists

  /** The fields this layer reads; `deleted` is `Boolean?`, and only `true` means deleted. */
  datatype Yarn = Yarn(id: int, name: string, amount: int, deleted: Option<bool>)
  datatype Project = Project(id: int, name: string, patternId: Option<int>, deleted: Option<bool>)
  datatype Pattern = Pattern(id: int, name: string, pdfId: Option<int>, deleted: Option<bool>)
  datatype Assignment = Assignment(id: int, yarnId: int, projectId: int, amount: int, deleted: Option<bool>)

  datatype AppData = AppData(
    yarns: seq<Yarn>, projects: seq<Project>, patterns: seq<Pattern>, assignments: seq<Assignment>)

  const EmptyData := AppData([], [], [], [])

  /** `deleted != true`. */
  predicate Live(deleted: Option<bool>) {
    deleted != Some(true)
  }

  function YarnId(y: Yarn): int { y.id }
  function ProjectId(p: Project): int { p.id }
  function PatternId(p: Pattern): int { p.id }
  function AssignmentId(a: Assignment): int { a.id }

  predicate YarnLive(y: Yarn) { Live(y.deleted) }
  predicate ProjectLive(p: Project) { Live(p.deleted) }
  predicate PatternLive(p: Pattern) { Live(p.deleted) }
  predicate AssignmentLive(a: Assignment) { Live(a.deleted) }

  /** The ids of a list, deleted entries included: `map { it.id }.toSet()`. */
  function Ids<T>(s: seq<T>, key: T -> int): (r: set<int>)
    ensures forall i :: 0 <= i < |s| ==> key(s[i]) in r
    ensures forall id :: id in r ==> exists i :: 0 <= i < |s| && key(s[i]) == id
  {
    set i | 0 <= i < |s| :: key(s[i])
  }

  // ---------------------------------------------------------------------------
  // Validation
  // ---------------------------------------------------------------------------

  /** The message `validateData` throws, by the check that failed. */
  datatype ValidationError =
    | BlankYarnName(yarnId: int)
    | BlankProjectName(projectId: int)
    | UnknownPattern(projectId: int, patternId: int)
    | BlankPatternName(patternId: int)
    | UnknownYarn(yarnId: int)
    | UnknownProject(projectId: int)

  function YarnProblem(y: Yarn): Option<ValidationError> {
    if IsBlank(y.name) then Some(BlankYarnName(y.id)) else None
  }

  /** A project's name is checked before its pattern reference. */
  function ProjectProblem(p: Project, patternIds: set<int>): Option<ValidationError> {
    if IsBlank(p.name) then Some(BlankProjectName(p.id))
    else if p.patternId.Some? && p.patternId.value !in patternIds then Some(UnknownPattern(p.id, p.patternId.value))
    else None
  }

  function PatternProblem(p: Pattern): Option<ValidationError> {
    if IsBlank(p.name) then Some(BlankPatternName(p.id)) else None
  }

  /** An assignment's yarn is checked before its project. */
  function AssignmentProblem(a: Assignment, yarnIds: set<int>, projectIds: set<int>): Option<ValidationError> {
    if a.yarnId !in yarnIds then Some(UnknownYarn(a.yarnId))
    else if a.projectId !in projectIds then Some(UnknownProject(a.projectId))
    else None
  }

  /** The first problem a `for` loop over `s` throws, if any. */
  function FirstProblem<T>(s: seq<T>, check: T -> Option<ValidationError>): (r: Option<ValidationError>)
    ensures r.None? <==> forall i :: 0 <= i < |s| ==> check(s[i]).None?
    ensures r.Some? ==> exists i :: (0 <= i < |s| && check(s[i]) == r
      && forall j :: 0 <= j < i ==> check(s[j]).None?)
  {
    if s == [] then None
    else if check(s[0]).Some? then check(s[0])
    else
      var r := FirstProblem(s[1..], check);
      assert forall i :: 1 <= i < |s| ==> s[i] == s[1..][i - 1];
      if r.Some? then
        var i :| 0 <= i < |s[1..]| && check(s[1..][i]) == r && forall j :: 0 <= j < i ==> check(s[1..][j]).None?;
        assert check(s[i + 1]) == r;
        r
      else r
  }

  /** What `validateData` accepts, stated over whole lists; deleted entries count as existing. */
  predicate Valid(d: AppData) {
    (forall y :: y in d.yarns ==> !IsBlank(y.name))
    && (forall p :: p in d.projects ==> !IsBlank(p.name))
    && (forall p :: p in d.projects && p.patternId.Some? ==> p.patternId.value in Ids(d.patterns, PatternId))
    && (forall p :: p in d.patterns ==> !IsBlank(p.name))
    && (forall a :: a in d.assignments ==> a.yarnId in Ids(d.yarns, YarnId))
    && (forall a :: a in d.assignments ==> a.projectId in Ids(d.projects, ProjectId))
  }

  /**
   * `validateData`: the loops run over yarns, projects, patterns and assignments in that
   * order, and the first failing check is the one reported.
   */
  function ValidateData(d: AppData): (r: Option<ValidationError>)
    ensures r.None? <==> Valid(d)
  {
    var yarnIds, projectIds, patternIds := Ids(d.yarns, YarnId), Ids(d.projects, ProjectId), Ids(d.patterns, PatternId);
    var yarnProblem := FirstProblem(d.yarns, YarnProblem);
    var projectProblem := FirstProblem(d.projects, (p: Project) => ProjectProblem(p, patternIds));
    var patternProblem := FirstProblem(d.patterns, PatternProblem);
    var assignmentProblem := FirstProblem(d.assignments, (a: Assignment) => AssignmentProblem(a, yarnIds, projectIds));
    ValidBySteps(d);
    if yarnProblem.Some? then yarnProblem
    else if projectProblem.Some? then projectProblem
    else if patternProblem.Some? then patternProblem
    else assignmentProblem
  }

  /** The four loops pass exactly when the whole-list statement holds. */
  lemma ValidBySteps(d: AppData)
    ensures Valid(d) <==>
      FirstProblem(d.yarns, YarnProblem).None?
      && FirstProblem(d.projects, (p: Project) => ProjectProblem(p, Ids(d.patterns, PatternId))).None?
      && FirstProblem(d.patterns, PatternProblem).None?
      && FirstProblem(d.assignments,
           (a: Assignment) => AssignmentProblem(a, Ids(d.yarns, YarnId), Ids(d.projects, ProjectId))).None?
    ensures (exists y :: y in d.yarns && IsBlank(y.name)) ==> FirstProblem(d.yarns, YarnProblem).Some?
  {
    YarnsStep(d.yarns);
    ProjectsStep(d.projects, Ids(d.patterns, PatternId));
    PatternsStep(d.patterns);
    AssignmentsStep(d.assignments, Ids(d.yarns, YarnId), Ids(d.projects, ProjectId));
  }

  lemma YarnsStep(yarns: seq<Yarn>)
    ensures FirstProblem(yarns, YarnProblem).None? <==> forall y :: y in yarns ==> !IsBlank(y.name)
  {
    if exists y :: y in yarns && IsBlank(y.name) {
      var y :| y in yarns && IsBlank(y.name);
      var i :| 0 <= i < |yarns| && yarns[i] == y;
      assert YarnProblem(yarns[i]).Some?;
    }
  }

  lemma ProjectsStep(projects: seq<Project>, patternIds: set<int>)
    ensures FirstProblem(projects, (p: Project) => ProjectProblem(p, patternIds)).None? <==>
      (forall p :: p in projects ==> !IsBlank(p.name))
      && (forall p :: p in projects && p.patternId.Some? ==> p.patternId.value in patternIds)
  {
    var check := (p: Project) => ProjectProblem(p, patternIds);
    if exists p :: p in projects && ProjectProblem(p, patternIds).Some? {
      var p :| p in projects && ProjectProblem(p, patternIds).Some?;
      var i :| 0 <= i < |projects| && projects[i] == p;
      assert check(projects[i]).Some?;
    }
  }

  lemma PatternsStep(patterns: seq<Pattern>)
    ensures FirstProblem(patterns, PatternProblem).None? <==> forall p :: p in patterns ==> !IsBlank(p.name)
  {
    if exists p :: p in patterns && IsBlank(p.name) {
      var p :| p in patterns && IsBlank(p.name);
      var i :| 0 <= i < |patterns| && patterns[i] == p;
      assert PatternProblem(patterns[i]).Some?;
    }
  }

  lemma AssignmentsStep(assignments: seq<Assignment>, yarnIds: set<int>, projectIds: set<int>)
    ensures FirstProblem(assignments, (a: Assignment) => AssignmentProblem(a, yarnIds, projectIds)).None? <==>
      (forall a :: a in assignments ==> a.yarnId in yarnIds)
      && (forall a :: a in assignments ==> a.projectId in projectIds)
  {
    var check := (a: Assignment) => AssignmentProblem(a, yarnIds, projectIds);
    if exists a :: a in assignments && AssignmentProblem(a, yarnIds, projectIds).Some? {
      var a :| a in assignments && AssignmentProblem(a, yarnIds, projectIds).Some?;
      var i :| 0 <= i < |assignments| && assignments[i] == a;
      assert check(assignments[i]).Some?;
    }
  }

  /** The yarn loop runs first: a blank yarn name is always the error reported. */
  lemma BlankYarnReportedFirst(d: AppData)
    requires exists y :: y in d.yarns && IsBlank(y.name)
    ensures ValidateData(d).Some? && ValidateData(d).value.BlankYarnName?
  {
    ValidBySteps(d);
  }

  /** A pattern or assignment error is only reported once every yarn and project name is filled in. */
  lemma LaterErrorsMeanNamesFilled(d: AppData)
    requires var r := ValidateData(d);
      r.Some? && (r.value.BlankPatternName? || r.value.UnknownYarn? || r.value.UnknownProject?)
    ensures forall y :: y in d.yarns ==> !IsBlank(y.name)
    ensures forall p :: p in d.projects ==> !IsBlank(p.name)
  {
    var patternIds := Ids(d.patterns, PatternId);
    var yarnProblem := FirstProblem(d.yarns, YarnProblem);
    var projectProblem := FirstProblem(d.projects, (p: Project) => ProjectProblem(p, patternIds));
    assert yarnProblem.None? && projectProblem.None?;
    forall y | y in d.yarns
      ensures !IsBlank(y.name)
    {
      var i :| 0 <= i < |d.yarns| && d.yarns[i] == y;
      assert YarnProblem(d.yarns[i]).None?;
    }
    forall p | p in d.projects
      ensures !IsBlank(p.name)
    {
      var i :| 0 <= i < |d.projects| && d.projects[i] == p;
      assert ProjectProblem(d.projects[i], patternIds).None?;
    }
  }

  // ---------------------------------------------------------------------------
  // Loading
  // ---------------------------------------------------------------------------

  /** `filter { it.deleted != true }` on every list. */
  function LiveOnly(d: AppData): (r: AppData)
    ensures forall y :: y in r.yarns <==> y in d.yarns && Live(y.deleted)
    ensures forall p :: p in r.projects <==> p in d.projects && Live(p.deleted)
    ensures forall p :: p in r.patterns <==> p in d.patterns && Live(p.deleted)
    ensures forall a :: a in r.assignments <==> a in d.assignments && Live(a.deleted)
  {
    AppData(Filter(d.yarns, YarnLive), Filter(d.projects, ProjectLive),
            Filter(d.patterns, PatternLive), Filter(d.assignments, AssignmentLive))
  }

  /** Filtering is stable: loading already-filtered data changes nothing more. */
  lemma LiveOnlyIdempotent(d: AppData)
    ensures LiveOnly(LiveOnly(d)) == LiveOnly(d)
  {
    FilterOfFilter(d.yarns, YarnLive, YarnLive);
    FilterOfFilter(d.projects, ProjectLive, ProjectLive);
    FilterOfFilter(d.patterns, PatternLive, PatternLive);
    FilterOfFilter(d.assignments, AssignmentLive, AssignmentLive);
  }

  /**
   * Validation counts deleted entries as existing, so a live assignment of a deleted
   * yarn passes it and is loaded without its yarn.
   */
  lemma LoadKeepsDanglingAssignment()
    ensures var d := AppData([Yarn(1, "Wool", 100, Some(true))], [Project(2, "Hat", None, None)], [],
                             [Assignment(3, 1, 2, 50, None)]);
      ValidateData(d).None? && LiveOnly(d).yarns == [] && |LiveOnly(d).assignments| == 1
  {
    var d := AppData([Yarn(1, "Wool", 100, Some(true))], [Project(2, "Hat", None, None)], [],
                     [Assignment(3, 1, 2, 50, None)]);
    assert d.yarns[0].name[0] == 'W' && !IsWhitespace('W');
    assert d.projects[0].name[0] == 'H' && !IsWhitespace('H');
    assert d.yarns[0].id in Ids(d.yarns, YarnId);
    assert d.projects[0].id in Ids(d.projects, ProjectId);
    assert Valid(d);
    assert Filter(d.yarns, YarnLive) == [];
    assert Filter(d.assignments, AssignmentLive) == d.assignments;
  }

  /** What `readText` produced: nothing, text that does not decode, or decoded data. */
  datatype Content = NoContent | Undecodable | Decoded(data: AppData)

  datatype LoadError = MalformedJson | Invalid(error: ValidationError)

  // ---------------------------------------------------------------------------
  // Queries
  // ---------------------------------------------------------------------------

  /** `getYarnById`: the first yarn with the id that is not deleted. */
  function GetYarnById(d: AppData, id: int): (r: Option<Yarn>)
    ensures r.Some? ==> r.value in d.yarns && r.value.id == id && Live(r.value.deleted)
    ensures r.None? <==> forall y :: y in d.yarns ==> y.id != id || !Live(y.deleted)
  {
    Find(d.yarns, (y: Yarn) => y.id == id && Live(y.deleted))
  }

  function GetProjectById(d: AppData, id: int): (r: Option<Project>)
    ensures r.Some? ==> r.value in d.projects && r.value.id == id && Live(r.value.deleted)
    ensures r.None? <==> forall p :: p in d.projects ==> p.id != id || !Live(p.deleted)
  {
    Find(d.projects, (p: Project) => p.id == id && Live(p.deleted))
  }

  function GetPatternById(d: AppData, id: int): (r: Option<Pattern>)
    ensures r.Some? ==> r.value in d.patterns && r.value.id == id && Live(r.value.deleted)
    ensures r.None? <==> forall p :: p in d.patterns ==> p.id != id || !Live(p.deleted)
  {
    Find(d.patterns, (p: Pattern) => p.id == id && Live(p.deleted))
  }

  function SumAmounts(s: seq<Assignment>): int {
    if s == [] then 0 else s[0].amount + SumAmounts(s[1..])
  }

  /** The assignments of the yarn that count against it: every project but `forProjectId`, deleted ones included. */
  function Counted(s: seq<Assignment>, yarnId: int, forProjectId: Option<int>): seq<Assignment> {
    Filter(s, (a: Assignment) => a.yarnId == yarnId && forProjectId != Some(a.projectId))
  }

  /** The assignments of the yarn to one project. */
  function InProject(s: seq<Assignment>, yarnId: int, projectId: int): seq<Assignment> {
    Filter(s, (a: Assignment) => a.yarnId == yarnId && a.projectId == projectId)
  }

  /**
   * `availableForYarn`: 0 for a missing or deleted yarn, otherwise its amount less the
   * counted assignments, with no lower bound.
   */
  function AvailableForYarn(d: AppData, yarnId: int, forProjectId: Option<int>): (r: int)
    ensures GetYarnById(d, yarnId).None? ==> r == 0
    ensures GetYarnById(d, yarnId).Some? && Counted(d.assignments, yarnId, forProjectId) == [] ==>
      r == GetYarnById(d, yarnId).value.amount
  {
    match GetYarnById(d, yarnId)
    case None => 0
    case Some(yarn) => yarn.amount - SumAmounts(Counted(d.assignments, yarnId, forProjectId))
  }

  /** `Counted` takes the amount of its first element exactly when that element counts. */
  lemma CountedCons(s: seq<Assignment>, yarnId: int, forProjectId: Option<int>)
    requires s != []
    ensures SumAmounts(Counted(s, yarnId, forProjectId))
      == (if s[0].yarnId == yarnId && forProjectId != Some(s[0].projectId) then s[0].amount else 0)
        + SumAmounts(Counted(s[1..], yarnId, forProjectId))
  {
    var c := Counted(s, yarnId, forProjectId);
    if s[0].yarnId == yarnId && forProjectId != Some(s[0].projectId) {
      assert c == [s[0]] + Counted(s[1..], yarnId, forProjectId);
      assert c[1..] == Counted(s[1..], yarnId, forProjectId);
    } else {
      assert c == Counted(s[1..], yarnId, forProjectId);
    }
  }

  /** `InProject` takes the amount of its first element exactly when that element is in the project. */
  lemma InProjectCons(s: seq<Assignment>, yarnId: int, projectId: int)
    requires s != []
    ensures SumAmounts(InProject(s, yarnId, projectId))
      == (if s[0].yarnId == yarnId && s[0].projectId == projectId then s[0].amount else 0)
        + SumAmounts(InProject(s[1..], yarnId, projectId))
  {
    var c := InProject(s, yarnId, projectId);
    if s[0].yarnId == yarnId && s[0].projectId == projectId {
      assert c == [s[0]] + InProject(s[1..], yarnId, projectId);
      assert c[1..] == InProject(s[1..], yarnId, projectId);
    } else {
      assert c == InProject(s[1..], yarnId, projectId);
    }
  }

  /** Excluding a project gives back exactly what that project holds of the yarn. */
  lemma {:induction false} CountedSplits(s: seq<Assignment>, yarnId: int, projectId: int)
    ensures SumAmounts(Counted(s, yarnId, None))
      == SumAmounts(Counted(s, yarnId, Some(projectId))) + SumAmounts(InProject(s, yarnId, projectId))
  {
    if s != [] {
      CountedSplits(s[1..], yarnId, projectId);
      CountedCons(s, yarnId, None);
      CountedCons(s, yarnId, Some(projectId));
      InProjectCons(s, yarnId, projectId);
    }
  }

  /** What a project may still take is the overall remainder plus what it already holds. */
  lemma AvailableForOwnProject(d: AppData, yarnId: int, projectId: int)
    requires GetYarnById(d, yarnId).Some?
    ensures AvailableForYarn(d, yarnId, Some(projectId))
      == AvailableForYarn(d, yarnId, None) + SumAmounts(InProject(d.assignments, yarnId, projectId))
  {
    CountedSplits(d.assignments, yarnId, projectId);
  }

  /** Nothing clamps the result: over-assigned yarn reports a negative amount. */
  lemma AvailableCanBeNegative()
    ensures AvailableForYarn(AppData([Yarn(1, "Wool", 100, None)], [], [], [Assignment(5, 1, 2, 150, None)]), 1, None) == -50
  {
    var d := AppData([Yarn(1, "Wool", 100, None)], [], [], [Assignment(5, 1, 2, 150, None)]);
    assert Counted(d.assignments, 1, None) == d.assignments;
  }

  // ---------------------------------------------------------------------------
  // Upsert by first index
  // ---------------------------------------------------------------------------

  /** `indexOfFirst { key(it) == id }`: the first index with the id, or -1. */
  function IndexOfId<T>(s: seq<T>, key: T -> int, id: int): (i: int)
    ensures -1 <= i < |s|
    ensures i == -1 <==> forall j :: 0 <= j < |s| ==> key(s[j]) != id
    ensures i >= 0 ==> key(s[i]) == id && forall j :: 0 <= j < i ==> key(s[j]) != id
  {
    if s == [] then -1
    else if key(s[0]) == id then 0
    else
      var j := IndexOfId(s[1..], key, id);
      assert forall k :: 1 <= k < |s| ==> s[k] == s[1..][k - 1];
      if j == -1 then -1 else j + 1
  }

  /**
   * `addOrUpdate*`: the first element with `x`'s id is replaced in place, or `x` is
   * appended when there is none.
   */
  function UpsertFirst<T>(s: seq<T>, key: T -> int, x: T): (r: seq<T>)
    ensures IndexOfId(s, key, key(x)) == -1 ==> r == s + [x]
    ensures IndexOfId(s, key, key(x)) != -1 ==>
      |r| == |s| && r[IndexOfId(s, key, key(x))] == x
      && forall j :: 0 <= j < |s| && j != IndexOfId(s, key, key(x)) ==> r[j] == s[j]
  {
    var i := IndexOfId(s, key, key(x));
    if i == -1 then s + [x] else s[i := x]
  }

  /** After an upsert, a lookup by the id finds the new element. */
  lemma UpsertFirstFinds<T>(s: seq<T>, key: T -> int, x: T)
    ensures var r := UpsertFirst(s, key, x);
      IndexOfId(r, key, key(x)) != -1 && r[IndexOfId(r, key, key(x))] == x
  {
    var r := UpsertFirst(s, key, x);
    var i := IndexOfId(s, key, key(x));
    if i == -1 {
      assert key(r[|s|]) == key(x);
    } else {
      assert key(r[i]) == key(x);
    }
  }

  /** ... and a lookup by any other id finds the same element at the same place as before. */
  lemma UpsertFirstKeepsOthers<T>(s: seq<T>, key: T -> int, x: T, id: int)
    requires id != key(x)
    ensures var r := UpsertFirst(s, key, x);
      IndexOfId(r, key, id) == IndexOfId(s, key, id)
      && (IndexOfId(s, key, id) != -1 ==> r[IndexOfId(r, key, id)] == s[IndexOfId(s, key, id)])
  {
    var r := UpsertFirst(s, key, x);
    var i := IndexOfId(s, key, key(x));
    assert forall j :: 0 <= j < |s| ==> (key(r[j]) == id <==> key(s[j]) == id);
    if i == -1 {
      assert key(r[|s|]) != id;
    }
  }

  // ---------------------------------------------------------------------------
  // Random ids
  // ---------------------------------------------------------------------------

  /**
   * The draw a retry loop settles on: the first value from position `from` on that is
   * not in `existing`, or none when the supplied draws run out first.
   */
  function FreshDraw(existing: set<int>, draws: seq<int>, from: nat): (r: Option<nat>)
    ensures r.Some? ==> from <= r.value < |draws| && draws[r.value] !in existing
    ensures r.Some? ==> forall j :: from <= j < r.value ==> draws[j] in existing
    ensures r.None? <==> forall j :: from <= j < |draws| ==> draws[j] in existing
    decreases |draws| - from
  {
    if from >= |draws| then None
    else if draws[from] !in existing then Some(from)
    else FreshDraw(existing, draws, from + 1)
  }

  /** The `do { … } while (existingIds.contains(newId))` loop over a supplied stream of draws. */
  method DrawFresh(existing: set<int>, draws: seq<int>, from: nat) returns (k: Option<nat>)
    ensures k == FreshDraw(existing, draws, from)
  {
    var i := from;
    while i < |draws| && draws[i] in existing
      invariant from <= i
      invariant FreshDraw(existing, draws, i) == FreshDraw(existing, draws, from)
      decreases |draws| - i
    {
      i := i + 1;
    }
    if i < |draws| {
      k := Some(i);
    } else {
      k := None;
    }
  }

  const ID_LIMIT := 2_000_000_000
  const PATTERN_ID_MIN := 1_000_000
  const PATTERN_ID_LIMIT := 10_000_000

  /** `defaultName.replace("%1$d", newId.toString())`. */
  function DefaultName(defaultName: string, id: int): string {
    ReplaceAll(defaultName, "%1$d", FormatInt(id))
  }

  // ---------------------------------------------------------------------------
  // Setting a project's assignments
  // ---------------------------------------------------------------------------

  /** `removeAll { it.projectId == projectId }`. */
  function OtherProjects(s: seq<Assignment>, projectId: int): (r: seq<Assignment>)
    ensures forall a :: a in r <==> a in s && a.projectId != projectId
  {
    Filter(s, (a: Assignment) => a.projectId != projectId)
  }

  predicate Positive(e: (int, int)) {
    e.1 > 0
  }

  /**
   * The assignments the loop adds, one per entry with a positive amount, each with the
   * next fresh draw; every draw avoids `existing` only, not the ids drawn before it in
   * the same call. The flag is false when the draws run out.
   */
  function NewAssignments(projectId: int, entries: seq<(int, int)>, existing: set<int>, draws: seq<int>, from: nat)
    : (r: (seq<Assignment>, bool))
    decreases |entries|
  {
    if entries == [] then ([], true)
    else if entries[0].1 <= 0 then NewAssignments(projectId, entries[1..], existing, draws, from)
    else
      match FreshDraw(existing, draws, from)
      case None => ([], false)
      case Some(k) =>
        var rest := NewAssignments(projectId, entries[1..], existing, draws, k + 1);
        ([Assignment(draws[k], entries[0].0, projectId, entries[0].1, None)] + rest.0, rest.1)
  }

  /**
   * Every added assignment is live, belongs to the project, has a positive amount and an
   * id taken from the draws that avoids `existing`; when the draws last, there is one per
   * positive entry.
   */
  lemma {:induction false} NewAssignmentsShape(projectId: int, entries: seq<(int, int)>, existing: set<int>, draws: seq<int>, from: nat)
    ensures var r := NewAssignments(projectId, entries, existing, draws, from);
      forall i :: 0 <= i < |r.0| ==>
        r.0[i].projectId == projectId && r.0[i].amount > 0 && r.0[i].id !in existing && Live(r.0[i].deleted)
    ensures var r := NewAssignments(projectId, entries, existing, draws, from);
      forall i :: 0 <= i < |r.0| ==> r.0[i].id in draws
    ensures var r := NewAssignments(projectId, entries, existing, draws, from);
      r.1 ==> |r.0| == Count(entries, Positive)
    decreases |entries|
  {
    if entries != [] {
      NewAssignmentsShape(projectId, entries[1..], existing, draws, from);
      if entries[0].1 > 0 {
        var k := FreshDraw(existing, draws, from);
        if k.Some? {
          var rest := NewAssignments(projectId, entries[1..], existing, draws, k.value + 1);
          NewAssignmentsShape(projectId, entries[1..], existing, draws, k.value + 1);
          var a := Assignment(draws[k.value], entries[0].0, projectId, entries[0].1, None);
          assert forall i :: 1 <= i < |[a] + rest.0| ==> ([a] + rest.0)[i] == rest.0[i - 1];
        }
      }
    }
  }

  /**
   * The added assignments follow the positive entries: the k-th carries the yarn and the
   * amount of the k-th entry with a positive amount, whether or not the draws last.
   */
  lemma {:induction false} NewAssignmentsFollowEntries(
    projectId: int, entries: seq<(int, int)>, existing: set<int>, draws: seq<int>, from: nat)
    ensures Follows(NewAssignments(projectId, entries, existing, draws, from).0, Filter(entries, Positive))
    decreases |entries|
  {
    if entries != [] {
      var tail := Filter(entries[1..], Positive);
      if entries[0].1 <= 0 {
        assert Filter(entries, Positive) == tail;
        NewAssignmentsFollowEntries(projectId, entries[1..], existing, draws, from);
      } else {
        assert Filter(entries, Positive) == [entries[0]] + tail;
        var k := FreshDraw(existing, draws, from);
        if k.Some? {
          NewAssignmentsFollowEntries(projectId, entries[1..], existing, draws, k.value + 1);
          var rest := NewAssignments(projectId, entries[1..], existing, draws, k.value + 1);
          var a := Assignment(draws[k.value], entries[0].0, projectId, entries[0].1, None);
          FollowsCons(a, rest.0, entries[0], tail);
        }
      }
    }
  }

  /** Each assignment carries the yarn and amount of the entry at its position. */
  predicate Follows(added: seq<Assignment>, positive: seq<(int, int)>) {
    |added| <= |positive|
    && forall i :: 0 <= i < |added| ==> added[i].yarnId == positive[i].0 && added[i].amount == positive[i].1
  }

  lemma FollowsCons(a: Assignment, added: seq<Assignment>, e: (int, int), positive: seq<(int, int)>)
    requires Follows(added, positive) && a.yarnId == e.0 && a.amount == e.1
    ensures Follows([a] + added, [e] + positive)
  {
    assert forall i :: 1 <= i < |[a] + added| ==> ([a] + added)[i] == added[i - 1] && ([e] + positive)[i] == positive[i - 1];
  }

  /** One step of the loop that `NewAssignments` describes. */
  lemma NewAssignmentsStep(projectId: int, entries: seq<(int, int)>, existing: set<int>, draws: seq<int>, from: nat)
    requires entries != []
    ensures entries[0].1 <= 0 ==>
      NewAssignments(projectId, entries, existing, draws, from) == NewAssignments(projectId, entries[1..], existing, draws, from)
    ensures entries[0].1 > 0 && FreshDraw(existing, draws, from).None? ==>
      NewAssignments(projectId, entries, existing, draws, from) == ([], false)
    ensures entries[0].1 > 0 && FreshDraw(existing, draws, from).Some? ==>
      var k := FreshDraw(existing, draws, from).value;
      var rest := NewAssignments(projectId, entries[1..], existing, draws, k + 1);
      NewAssignments(projectId, entries, existing, draws, from)
        == ([Assignment(draws[k], entries[0].0, projectId, entries[0].1, None)] + rest.0, rest.1)
  {
  }

  /**
   * The loop of `setProjectAssignments`: for each entry with a positive amount, draw until
   * an id is not among `existing`, then build the assignment.
   */
  method DrawAssignments(projectId: int, entries: seq<(int, int)>, existing: set<int>, draws: seq<int>)
    returns (added: seq<Assignment>, complete: bool)
    ensures (added, complete) == NewAssignments(projectId, entries, existing, draws, 0)
  {
    ghost var all := NewAssignments(projectId, entries, existing, draws, 0);
    added := [];
    var cursor: nat := 0;
    var i := 0;
    complete := true;
    while i < |entries|
      invariant 0 <= i <= |entries|
      invariant all.0 == added + NewAssignments(projectId, entries[i..], existing, draws, cursor).0
      invariant all.1 == NewAssignments(projectId, entries[i..], existing, draws, cursor).1
    {
      ghost var step := NewAssignments(projectId, entries[i..], existing, draws, cursor);
      assert entries[i..][1..] == entries[i + 1..];
      NewAssignmentsStep(projectId, entries[i..], existing, draws, cursor);
      var entry := entries[i];
      if entry.1 > 0 {
        var k := DrawFresh(existing, draws, cursor);
        if k.None? {
          assert step == ([], false);
          assert all.0 == added;
          complete := false;
          break;
        }
        var a := Assignment(draws[k.value], entry.0, projectId, entry.1, None);
        ghost var rest := NewAssignments(projectId, entries[i + 1..], existing, draws, k.value + 1);
        assert step == ([a] + rest.0, rest.1);
        added := added + [a];
        cursor := k.value + 1;
      } else {
        assert step == NewAssignments(projectId, entries[i + 1..], existing, draws, cursor);
      }
      i := i + 1;
    }
    if complete {
      assert entries[|entries|..] == [];
      assert all.0 == added;
    }
  }

  /** Ids drawn in one call are not checked against each other: two entries can share an id. */
  lemma NewIdsMayRepeat()
    ensures NewAssignments(7, [(1, 5), (2, 5)], {}, [42, 42], 0).0
      == [Assignment(42, 1, 7, 5, None), Assignment(42, 2, 7, 5, None)]
  {
    var entries: seq<(int, int)> := [(1, 5), (2, 5)];
    assert entries[1..] == [(2, 5)];
    assert entries[1..][1..] == [];
    assert NewAssignments(7, [], {}, [42, 42], 2) == ([], true);
    assert NewAssignments(7, [(2, 5)], {}, [42, 42], 1).0 == [Assignment(42, 2, 7, 5, None)];
  }

  // ---------------------------------------------------------------------------
  // The manager
  // ---------------------------------------------------------------------------

  class JsonDataManager {
    var data: AppData

    constructor ()
      ensures data == EmptyData
    {
      data := EmptyData;
    }

    /**
     * `load`: empty content gives empty data; content that fails to decode or to
     * validate is reported and leaves the data as it was; valid content is loaded
     * without its deleted entries.
     */
    method Load(content: Content) returns (r: Result<AppData, LoadError>)
      modifies this
      ensures content.NoContent? ==> data == EmptyData && r == Ok(data)
      ensures content.Undecodable? ==> data == old(data) && r == Err(MalformedJson)
      ensures content.Decoded? && ValidateData(content.data).Some? ==>
        data == old(data) && r == Err(Invalid(ValidateData(content.data).value))
      ensures content.Decoded? && ValidateData(content.data).None? ==>
        data == LiveOnly(content.data) && r == Ok(data)
    {
      match content
      case NoContent =>
        data := EmptyData;
        r := Ok(data);
      case Undecodable =>
        r := Err(MalformedJson);
      case Decoded(decoded) =>
        var problem := ValidateData(decoded);
        if problem.Some? {
          r := Err(Invalid(problem.value));
        } else {
          data := LiveOnly(decoded);
          r := Ok(data);
        }
    }

    /**
     * `createNewYarn`: the first draw not among the yarn ids (deleted ones included)
     * becomes the id of a new, unsaved yarn named after it.
     */
    method CreateNewYarn(defaultName: string, draws: seq<int>) returns (r: Option<Yarn>)
      requires forall i :: 0 <= i < |draws| ==> 0 <= draws[i] < ID_LIMIT
      ensures r.None? <==> forall i :: 0 <= i < |draws| ==> draws[i] in Ids(data.yarns, YarnId)
      ensures r.Some? ==> r.value.id !in Ids(data.yarns, YarnId) && 0 <= r.value.id < ID_LIMIT
      ensures r.Some? ==> r.value == Yarn(r.value.id, DefaultName(defaultName, r.value.id), 0, None)
    {
      var k := DrawFresh(Ids(data.yarns, YarnId), draws, 0);
      if k.Some? {
        var id := draws[k.value];
        r := Some(Yarn(id, DefaultName(defaultName, id), 0, None));
      } else {
        r := None;
      }
    }

    method CreateNewProject(defaultName: string, draws: seq<int>) returns (r: Option<Project>)
      requires forall i :: 0 <= i < |draws| ==> 0 <= draws[i] < ID_LIMIT
      ensures r.None? <==> forall i :: 0 <= i < |draws| ==> draws[i] in Ids(data.projects, ProjectId)
      ensures r.Some? ==> r.value.id !in Ids(data.projects, ProjectId) && 0 <= r.value.id < ID_LIMIT
      ensures r.Some? ==> r.value == Project(r.value.id, DefaultName(defaultName, r.value.id), None, None)
    {
      var k := DrawFresh(Ids(data.projects, ProjectId), draws, 0);
      if k.Some? {
        var id := draws[k.value];
        r := Some(Project(id, DefaultName(defaultName, id), None, None));
      } else {
        r := None;
      }
    }

    /** `createNewPattern`: ids come from [1,000,000, 10,000,000) and the name is `Pattern#<id>`. */
    method CreateNewPattern(draws: seq<int>) returns (r: Option<Pattern>)
      requires forall i :: 0 <= i < |draws| ==> PATTERN_ID_MIN <= draws[i] < PATTERN_ID_LIMIT
      ensures r.None? <==> forall i :: 0 <= i < |draws| ==> draws[i] in Ids(data.patterns, PatternId)
      ensures r.Some? ==> r.value.id !in Ids(data.patterns, PatternId)
      ensures r.Some? ==> PATTERN_ID_MIN <= r.value.id < PATTERN_ID_LIMIT
      ensures r.Some? ==> r.value == Pattern(r.value.id, "Pattern#" + FormatInt(r.value.id), None, None)
    {
      var k := DrawFresh(Ids(data.patterns, PatternId), draws, 0);
      if k.Some? {
        var id := draws[k.value];
        r := Some(Pattern(id, "Pattern#" + FormatInt(id), None, None));
      } else {
        r := None;
      }
    }

    method AddOrUpdateYarn(yarn: Yarn)
      modifies this
      ensures data == old(data).(yarns := UpsertFirst(old(data.yarns), YarnId, yarn))
    {
      var index := IndexOfId(data.yarns, YarnId, yarn.id);
      if index != -1 {
        data := data.(yarns := data.yarns[index := yarn]);
      } else {
        data := data.(yarns := data.yarns + [yarn]);
      }
    }

    method AddOrUpdateProject(project: Project)
      modifies this
      ensures data == old(data).(projects := UpsertFirst(old(data.projects), ProjectId, project))
    {
      var index := IndexOfId(data.projects, ProjectId, project.id);
      if index != -1 {
        data := data.(projects := data.projects[index := project]);
      } else {
        data := data.(projects := data.projects + [project]);
      }
    }

    method AddOrUpdatePattern(pattern: Pattern)
      modifies this
      ensures data == old(data).(patterns := UpsertFirst(old(data.patterns), PatternId, pattern))
    {
      var index := IndexOfId(data.patterns, PatternId, pattern.id);
      if index != -1 {
        data := data.(patterns := data.patterns[index := pattern]);
      } else {
        data := data.(patterns := data.patterns + [pattern]);
      }
    }

    /**
     * The `forEachIndexed` cascade: every assignment that `refersTo` and is not yet
     * deleted is marked deleted; the others keep their place and value.
     */
    method MarkAssignmentsDeleted(refersTo: Assignment -> bool)
      modifies this
      ensures data.yarns == old(data.yarns) && data.projects == old(data.projects)
      ensures data.patterns == old(data.patterns)
      ensures |data.assignments| == |old(data.assignments)|
      ensures forall j :: 0 <= j < |data.assignments| ==>
        data.assignments[j] == if refersTo(old(data.assignments)[j]) && Live(old(data.assignments)[j].deleted)
          then old(data.assignments)[j].(deleted := Some(true)) else old(data.assignments)[j]
    {
      ghost var before := data.assignments;
      var i := 0;
      while i < |data.assignments|
        invariant 0 <= i <= |data.assignments| == |before|
        invariant data.yarns == old(data.yarns) && data.projects == old(data.projects)
        invariant data.patterns == old(data.patterns)
        invariant forall j :: 0 <= j < i ==>
          data.assignments[j] == if refersTo(before[j]) && Live(before[j].deleted)
            then before[j].(deleted := Some(true)) else before[j]
        invariant forall j :: i <= j < |data.assignments| ==> data.assignments[j] == before[j]
      {
        var a := data.assignments[i];
        if refersTo(a) && Live(a.deleted) {
          data := data.(assignments := data.assignments[i := a.(deleted := Some(true))]);
        }
        i := i + 1;
      }
    }

    /**
     * `deleteYarn`: an unknown id changes nothing; otherwise the first yarn with the id
     * is marked deleted, and so is every live assignment of that yarn.
     */
    method DeleteYarn(id: int)
      modifies this
      ensures IndexOfId(old(data.yarns), YarnId, id) == -1 ==> data == old(data)
      ensures IndexOfId(old(data.yarns), YarnId, id) != -1 ==>
        var i := IndexOfId(old(data.yarns), YarnId, id);
        data.yarns == old(data.yarns)[i := old(data.yarns)[i].(deleted := Some(true))]
        && data.projects == old(data.projects) && data.patterns == old(data.patterns)
        && |data.assignments| == |old(data.assignments)|
        && (forall j :: 0 <= j < |data.assignments| ==>
             data.assignments[j] == if old(data.assignments)[j].yarnId == id && Live(old(data.assignments)[j].deleted)
               then old(data.assignments)[j].(deleted := Some(true)) else old(data.assignments)[j])
      ensures IndexOfId(old(data.yarns), YarnId, id) != -1 ==>
        forall a :: a in data.assignments && a.yarnId == id ==> !Live(a.deleted)
    {
      var index := IndexOfId(data.yarns, YarnId, id);
      if index != -1 {
        data := data.(yarns := data.yarns[index := data.yarns[index].(deleted := Some(true))]);
        MarkAssignmentsDeleted((a: Assignment) => a.yarnId == id);
      }
    }

    /** `deleteProject`: the same cascade, over the project's assignments. */
    method DeleteProject(id: int)
      modifies this
      ensures IndexOfId(old(data.projects), ProjectId, id) == -1 ==> data == old(data)
      ensures IndexOfId(old(data.projects), ProjectId, id) != -1 ==>
        var i := IndexOfId(old(data.projects), ProjectId, id);
        data.projects == old(data.projects)[i := old(data.projects)[i].(deleted := Some(true))]
        && data.yarns == old(data.yarns) && data.patterns == old(data.patterns)
        && |data.assignments| == |old(data.assignments)|
        && (forall j :: 0 <= j < |data.assignments| ==>
             data.assignments[j] == if old(data.assignments)[j].projectId == id && Live(old(data.assignments)[j].deleted)
               then old(data.assignments)[j].(deleted := Some(true)) else old(data.assignments)[j])
      ensures IndexOfId(old(data.projects), ProjectId, id) != -1 ==>
        forall a :: a in data.assignments && a.projectId == id ==> !Live(a.deleted)
    {
      var index := IndexOfId(data.projects, ProjectId, id);
      if index != -1 {
        data := data.(projects := data.projects[index := data.projects[index].(deleted := Some(true))]);
        MarkAssignmentsDeleted((a: Assignment) => a.projectId == id);
      }
    }

    /**
     * `deletePattern`: the pattern is marked deleted and every live project that uses it
     * loses its pattern reference; no project is deleted.
     */
    method DeletePattern(id: int)
      modifies this
      ensures IndexOfId(old(data.patterns), PatternId, id) == -1 ==> data == old(data)
      ensures IndexOfId(old(data.patterns), PatternId, id) != -1 ==>
        var i := IndexOfId(old(data.patterns), PatternId, id);
        data.patterns == old(data.patterns)[i := old(data.patterns)[i].(deleted := Some(true))]
        && data.yarns == old(data.yarns) && data.assignments == old(data.assignments)
        && |data.projects| == |old(data.projects)|
        && (forall j :: 0 <= j < |data.projects| ==>
             data.projects[j] == if old(data.projects)[j].patternId == Some(id) && Live(old(data.projects)[j].deleted)
               then old(data.projects)[j].(patternId := None) else old(data.projects)[j])
      ensures forall j :: 0 <= j < |data.projects| ==> data.projects[j].deleted == old(data.projects)[j].deleted
    {
      var index := IndexOfId(data.patterns, PatternId, id);
      if index != -1 {
        data := data.(patterns := data.patterns[index := data.patterns[index].(deleted := Some(true))]);
        ghost var before := data.projects;
        var i := 0;
        while i < |data.projects|
          invariant 0 <= i <= |data.projects| == |before|
          invariant data.yarns == old(data.yarns) && data.assignments == old(data.assignments)
          invariant data.patterns == old(data.patterns)[index := old(data.patterns)[index].(deleted := Some(true))]
          invariant forall j :: 0 <= j < i ==>
            data.projects[j] == if before[j].patternId == Some(id) && Live(before[j].deleted)
              then before[j].(patternId := None) else before[j]
          invariant forall j :: i <= j < |data.projects| ==> data.projects[j] == before[j]
        {
          var p := data.projects[i];
          if p.patternId == Some(id) && Live(p.deleted) {
            data := data.(projects := data.projects[i := p.(patternId := None)]);
          }
          i := i + 1;
        }
      }
    }

    /** `updatePatternPdfId`: the first pattern with the id gets the new PDF id. */
    method UpdatePatternPdfId(patternId: int, pdfId: Option<int>)
      modifies this
      ensures IndexOfId(old(data.patterns), PatternId, patternId) == -1 ==> data == old(data)
      ensures IndexOfId(old(data.patterns), PatternId, patternId) != -1 ==>
        var i := IndexOfId(old(data.patterns), PatternId, patternId);
        data == old(data).(patterns := old(data.patterns)[i := old(data.patterns)[i].(pdfId := pdfId)])
    {
      var index := IndexOfId(data.patterns, PatternId, patternId);
      if index != -1 {
        data := data.(patterns := data.patterns[index := data.patterns[index].(pdfId := pdfId)]);
      }
    }

    /**
     * `setProjectAssignments`: the project's assignments are removed, then one live
     * assignment per positive entry is appended with an id drawn against the ids that
     * remained. `complete` is false when the draws ran out before every entry had an id.
     */
    method SetProjectAssignments(projectId: int, entries: seq<(int, int)>, draws: seq<int>) returns (complete: bool)
      requires forall i :: 0 <= i < |draws| ==> 0 <= draws[i] < ID_LIMIT
      modifies this
      ensures var kept := OtherProjects(old(data.assignments), projectId);
        var added := NewAssignments(projectId, entries, Ids(kept, AssignmentId), draws, 0);
        data == old(data).(assignments := kept + added.0) && complete == added.1
    {
      data := data.(assignments := OtherProjects(data.assignments, projectId));
      var existing := Ids(data.assignments, AssignmentId);
      var added;
      added, complete := DrawAssignments(projectId, entries, existing, draws);
      data := data.(assignments := data.assignments + added);
    }
  }
}
