/**
 * The project list screen: which statuses are shown, the name filter, the order by
 * last modification, the status chips and the yarns previewed for each project.
 */
module ProjectList {
  import opened Wrappers
  import opened Text
  import opened Sorting
  import opened Lists
  import opened ProjectStatus

  /** The fields of a project this screen reads. */
  datatype ProjectRow = ProjectRow(
    id: int, name: string, startDate: Option<string>, endDate: Option<string>,
    modified: Option<string>)

  datatype YarnRow = YarnRow(id: int, name: string)

  datatype UsageRow = UsageRow(projectId: int, yarnId: int, amount: int)

  function StatusOfRow(p: ProjectRow): Status {
    StatusOf(p.startDate, p.endDate)
  }

  // ---------------------------------------------------------------------------
  // Active statuses and the settings toggles
  // ---------------------------------------------------------------------------

  /** A status is active unless the stored toggle for its name is `false`. */
  function InitialActive(toggles: map<string, bool>): (r: set<Status>)
    ensures forall st :: st in r <==> StatusName(st) !in toggles || toggles[StatusName(st)]
  {
    set st | st in AllStatuses && (StatusName(st) !in toggles || toggles[StatusName(st)])
  }

  /** `values().associate { it.name to (it in active) }`. */
  function TogglesOf(active: set<Status>): (r: map<string, bool>)
    ensures forall st :: StatusName(st) in r && r[StatusName(st)] == (st in active)
    ensures forall k :: k in r ==> exists st :: StatusName(st) == k
  {
    map[StatusName(Planning) := Planning in active,
        StatusName(InProgress) := InProgress in active,
        StatusName(Finished) := Finished in active]
  }

  /**
   * Clicking the chip of `st` flips exactly that status and stores one toggle per
   * status, equal to its new membership.
   */
  function ChipClicked(active: set<Status>, st: Status): (r: (set<Status>, map<string, bool>))
    ensures st in r.0 <==> st !in active
    ensures forall other :: other != st ==> (other in r.0 <==> other in active)
    ensures r.1 == TogglesOf(r.0)
  {
    var next := if st in active then active - {st} else active + {st};
    (next, TogglesOf(next))
  }

  /** The stored toggles reproduce, the next time the screen opens, the statuses that were active. */
  lemma TogglesRoundTrip(active: set<Status>)
    ensures InitialActive(TogglesOf(active)) == active
  {
    forall st ensures st in InitialActive(TogglesOf(active)) <==> st in active {
      assert TogglesOf(active)[StatusName(st)] == (st in active);
    }
  }

  // ---------------------------------------------------------------------------
  // Filter and order
  // ---------------------------------------------------------------------------

  /** A project is listed when its status is active and a non-blank filter occurs in its name. */
  predicate Listed(p: ProjectRow, active: set<Status>, filter: string) {
    StatusOfRow(p) in active && (IsBlank(filter) || ContainsIgnoreCase(p.name, filter))
  }

  /** Kotlin's order on `String?`: null first, then the strings in lexicographic order. */
  predicate NullableLe(a: Option<string>, b: Option<string>) {
    match (a, b)
    case (None, _) => true
    case (Some(_), None) => false
    case (Some(x), Some(y)) => StrLe(x, y)
  }

  /** `sortedByDescending { it.modified }`: `a` may come before `b` when `b.modified <= a.modified`. */
  function ModifiedDescending(): (ProjectRow, ProjectRow) -> bool {
    (a: ProjectRow, b: ProjectRow) => NullableLe(b.modified, a.modified)
  }

  lemma ModifiedDescendingIsPreorder()
    ensures TotalPreorder(ModifiedDescending())
  {
    var le := ModifiedDescending();
    forall a, b ensures le(a, b) || le(b, a) {
      if a.modified.Some? && b.modified.Some? {
        StrLeTotal(a.modified.value, b.modified.value);
      }
    }
    forall a, b, c | le(a, b) && le(b, c) ensures le(a, c) {
      if a.modified.Some? && b.modified.Some? && c.modified.Some? {
        StrLeTrans(c.modified.value, b.modified.value, a.modified.value);
      }
    }
  }

  function ShownProjects(projects: seq<ProjectRow>, active: set<Status>, filter: string): seq<ProjectRow> {
    StableSort(Filter(projects, p => Listed(p, active, filter)), ModifiedDescending())
  }

  /**
   * The list shows exactly the listed projects, each as often as it occurs, the most
   * recently modified first (projects never modified last), and keeps the input order
   * of projects with the same modification stamp.
   */
  lemma ShownProjectsCorrect(projects: seq<ProjectRow>, active: set<Status>, filter: string)
    ensures var r := ShownProjects(projects, active, filter);
      && multiset(r) == multiset(Filter(projects, p => Listed(p, active, filter)))
      && (forall i :: 0 <= i < |r| ==> Listed(r[i], active, filter))
      && (forall i, j :: 0 <= i < j < |r| ==> NullableLe(r[j].modified, r[i].modified))
      && forall e :: EquivRun(r, e, ModifiedDescending())
                  == EquivRun(Filter(projects, p => Listed(p, active, filter)), e, ModifiedDescending())
  {
    var f := Filter(projects, p => Listed(p, active, filter));
    ModifiedDescendingIsPreorder();
    StableSortCorrect(f, ModifiedDescending());
    var r := StableSort(f, ModifiedDescending());
    forall i | 0 <= i < |r| ensures Listed(r[i], active, filter) {
      assert r[i] in multiset(f);
      var k :| 0 <= k < |f| && f[k] == r[i];
    }
  }

  /** With every status active and a blank filter, every project is listed. */
  lemma EverythingListed(projects: seq<ProjectRow>, filter: string)
    requires IsBlank(filter)
    ensures multiset(ShownProjects(projects, {Planning, InProgress, Finished}, filter)) == multiset(projects)
  {
    var all := {Planning, InProgress, Finished};
    FilterAll(projects, p => Listed(p, all, filter));
    ShownProjectsCorrect(projects, all, filter);
  }

  // ---------------------------------------------------------------------------
  // Chip counts
  // ---------------------------------------------------------------------------

  /** `projects.count { it.status == status }`, over all projects, not just the listed ones. */
  function ChipCount(projects: seq<ProjectRow>, st: Status): nat {
    Count(projects, p => StatusOfRow(p) == st)
  }

  /** The three chip counts add up to the number of projects. */
  lemma {:induction false} ChipCountsAddUp(projects: seq<ProjectRow>)
    ensures ChipCount(projects, Planning) + ChipCount(projects, InProgress)
          + ChipCount(projects, Finished) == |projects|
  {
    if projects != [] {
      ChipCountsAddUp(projects[1..]);
    }
  }

  // ---------------------------------------------------------------------------
  // Yarn preview
  // ---------------------------------------------------------------------------

  /** `yarns.find { it.id == id }`: the first yarn with that id. */
  function FindYarn(yarns: seq<YarnRow>, id: int): (r: Option<YarnRow>)
    ensures r.Some? ==> r.value in yarns && r.value.id == id
    ensures r.None? <==> forall i :: 0 <= i < |yarns| ==> yarns[i].id != id
  {
    Find(yarns, (y: YarnRow) => y.id == id)
  }

  /** The yarn found is the first with the id, not a later duplicate. */
  lemma FindYarnFirst(yarns: seq<YarnRow>, id: int, i: nat)
    requires i < |yarns| && yarns[i].id == id
    requires forall j :: 0 <= j < i ==> yarns[j].id != id
    ensures FindYarn(yarns, id) == Some(yarns[i])
  {
    FindFirst(yarns, (y: YarnRow) => y.id == id, i);
  }

  /** Some usage of the project refers to the yarn id. */
  predicate UsesYarn(usages: seq<UsageRow>, projectId: int, yarnId: int) {
    exists k :: 0 <= k < |usages| && usages[k].projectId == projectId && usages[k].yarnId == yarnId
  }

  lemma UsesYarnTail(usages: seq<UsageRow>, projectId: int, yarnId: int)
    requires usages != [] && UsesYarn(usages[1..], projectId, yarnId)
    ensures UsesYarn(usages, projectId, yarnId)
  {
    var k :| 0 <= k < |usages[1..]| && usages[1..][k].projectId == projectId
      && usages[1..][k].yarnId == yarnId;
    assert usages[k + 1] == usages[1..][k];
  }

  /**
   * The yarns of the project's usages, in usage order, one per usage whose yarn
   * still exists.
   */
  function YarnsForProject(usages: seq<UsageRow>, yarns: seq<YarnRow>, projectId: int): (r: seq<YarnRow>)
    ensures |r| <= |usages|
    ensures forall i :: 0 <= i < |r| ==> r[i] in yarns && UsesYarn(usages, projectId, r[i].id)
  {
    if usages == [] then []
    else
      var rest := YarnsForProject(usages[1..], yarns, projectId);
      var u := usages[0];
      var found := FindYarn(yarns, u.yarnId);
      assert forall i :: 0 <= i < |rest| ==> UsesYarn(usages, projectId, rest[i].id) by {
        forall i | 0 <= i < |rest| ensures UsesYarn(usages, projectId, rest[i].id) {
          UsesYarnTail(usages, projectId, rest[i].id);
        }
      }
      if u.projectId == projectId && found.Some? then
        assert UsesYarn(usages, projectId, found.value.id) by {
          assert usages[0].projectId == projectId && usages[0].yarnId == found.value.id;
        }
        [found.value] + rest
      else rest
  }

  /** Usages of other projects and usages of missing yarns do not change the preview. */
  lemma YarnsForProjectSkips(u: UsageRow, usages: seq<UsageRow>, yarns: seq<YarnRow>, projectId: int)
    requires u.projectId != projectId || FindYarn(yarns, u.yarnId).None?
    ensures YarnsForProject([u] + usages, yarns, projectId) == YarnsForProject(usages, yarns, projectId)
  {
    assert ([u] + usages)[1..] == usages;
  }

  /**
   * A usage of the project whose yarn exists contributes that yarn, in front of what the
   * later usages contribute: the preview follows usage order and misses no such usage.
   */
  lemma YarnsForProjectTakes(u: UsageRow, usages: seq<UsageRow>, yarns: seq<YarnRow>, projectId: int)
    requires u.projectId == projectId && FindYarn(yarns, u.yarnId).Some?
    ensures YarnsForProject([u] + usages, yarns, projectId)
      == [FindYarn(yarns, u.yarnId).value] + YarnsForProject(usages, yarns, projectId)
  {
    assert ([u] + usages)[0] == u && ([u] + usages)[1..] == usages;
  }

  /** At most five preview yarns are drawn: the first five of the list. */
  function PreviewYarns(usages: seq<UsageRow>, yarns: seq<YarnRow>, projectId: int): (r: seq<YarnRow>)
    ensures |r| <= 5 && |r| <= |YarnsForProject(usages, yarns, projectId)|
    ensures r == YarnsForProject(usages, yarns, projectId)[..|r|]
    ensures |YarnsForProject(usages, yarns, projectId)| >= 5 ==> |r| == 5
  {
    TakeList(YarnsForProject(usages, yarns, projectId), 5)
  }
}
