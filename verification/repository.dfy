/**
 * The functional data layer: a cache of yarns, projects and usages that every mutator
 * rebuilds with list transforms and then saves, writing the usages to disk as one
 * `"yarnId,projectId" -> amount` object.
 */
module Repository {
  import opened Wrappers
  import opened Text
  import opened Lists

  /** The fields of the records that this layer reads; the others are carried along unread. */
  datatype Yarn = Yarn(id: int, name: string, amount: int)
  datatype Project = Project(id: int, name: string)
  datatype Usage = Usage(projectId: int, yarnId: int, amount: int)
  datatype AppData = AppData(yarns: seq<Yarn>, projects: seq<Project>, usages: seq<Usage>)

  const EmptyData := AppData([], [], [])

  /** The entries of the on-disk usage object, in the object's order. */
  type Entries = seq<(string, int)>

  /** The on-disk schema: yarns and projects as they are, usages flattened. */
  datatype Disk = Disk(yarns: seq<Yarn>, projects: seq<Project>, usages: Entries)

  function YarnId(y: Yarn): int { y.id }
  function ProjectId(p: Project): int { p.id }

  // ---------------------------------------------------------------------------
  // The usage key
  // ---------------------------------------------------------------------------

  /** `"${u.yarnId},${u.projectId}"`. */
  function UsageKey(u: Usage): string {
    FormatInt(u.yarnId) + "," + FormatInt(u.projectId)
  }

  /**
   * `parseKey`: the key split on ',' must give exactly two parts, each of which parses
   * as an `Int` after trimming; the result is `(yarnId, projectId)`.
   */
  function ParseKey(key: string): (r: Option<(int, int)>)
    ensures r.Some? <==>
      |Split(key, ',')| == 2 && ParseInt(Trim(Split(key, ',')[0])).Some?
      && ParseInt(Trim(Split(key, ',')[1])).Some?
    ensures r.Some? ==>
      r.value == (ParseInt(Trim(Split(key, ',')[0])).value, ParseInt(Trim(Split(key, ',')[1])).value)
  {
    var parts := Split(key, ',');
    if |parts| != 2 then None
    else
      match ParseInt(Trim(parts[0]))
      case None => None
      case Some(yarnId) =>
        match ParseInt(Trim(parts[1]))
        case None => None
        case Some(projectId) => Some((yarnId, projectId))
  }

  /** A formatted integer has no comma and no whitespace at either end. */
  lemma FormattedIntIsToken(x: int)
    ensures ',' !in FormatInt(x)
    ensures Trim(FormatInt(x)) == FormatInt(x)
  {
    FormatIntChars(x);
    var s := FormatInt(x);
    assert !IsWhitespace(s[0]) && !IsWhitespace(s[|s| - 1]);
  }

  /** Two comma-free texts joined by a comma split back into the two. */
  lemma SplitPair(a: string, b: string)
    requires ',' !in a && ',' !in b
    ensures Split(a + "," + b, ',') == [a, b]
  {
    SplitNoSep(b, ',');
    SplitAtFirst(a, ',', b);
    assert a + "," + b == a + [','] + b;
  }

  /** The key splits back into the two formatted ids. */
  lemma KeySplits(u: Usage)
    ensures Split(UsageKey(u), ',') == [FormatInt(u.yarnId), FormatInt(u.projectId)]
  {
    FormattedIntIsToken(u.yarnId);
    FormattedIntIsToken(u.projectId);
    SplitPair(FormatInt(u.yarnId), FormatInt(u.projectId));
  }

  /** A formatted `Int` survives trimming and parses back. */
  lemma TrimmedParses(x: int)
    requires IsInt32(x)
    ensures ParseInt(Trim(FormatInt(x))) == Some(x)
  {
    FormattedIntIsToken(x);
    FormatParse(x);
  }

  /** Round trip: the key written for a usage parses back into its two ids. */
  lemma ParseUsageKey(u: Usage)
    requires IsInt32(u.yarnId) && IsInt32(u.projectId)
    ensures ParseKey(UsageKey(u)) == Some((u.yarnId, u.projectId))
  {
    KeySplits(u);
    TrimmedParses(u.yarnId);
    TrimmedParses(u.projectId);
  }

  // ---------------------------------------------------------------------------
  // Saving: the flat usage object
  // ---------------------------------------------------------------------------

  /** The value stored under `k`, if any. */
  function Lookup(m: Entries, k: string): (r: Option<int>)
    ensures r.None? <==> forall i :: 0 <= i < |m| ==> m[i].0 != k
  {
    if m == [] then None
    else if m[0].0 == k then Some(m[0].1)
    else Lookup(m[1..], k)
  }

  /**
   * `put(k, v)` on the insertion-ordered map `buildMap` fills: an existing key keeps its
   * place and takes the new value, a new key goes last.
   */
  function Put(m: Entries, k: string, v: int): (r: Entries)
    ensures Lookup(r, k) == Some(v)
    ensures forall k' :: k' != k ==> Lookup(r, k') == Lookup(m, k')
    ensures Lookup(m, k).None? ==> r == m + [(k, v)]
    ensures Lookup(m, k).Some? ==> |r| == |m|
  {
    if m == [] then [(k, v)]
    else if m[0].0 == k then [(k, v)] + m[1..]
    else [m[0]] + Put(m[1..], k, v)
  }

  /** The usage object `save` writes: one `put` per usage, in list order. */
  function FlatUsages(usages: seq<Usage>): Entries {
    if usages == [] then []
    else
      var u := usages[|usages| - 1];
      Put(FlatUsages(usages[..|usages| - 1]), UsageKey(u), u.amount)
  }

  /** The amount of the last usage whose key is `k`: "last write wins" read from the back. */
  function LastAmount(usages: seq<Usage>, k: string): Option<int> {
    if usages == [] then None
    else
      var u := usages[|usages| - 1];
      if UsageKey(u) == k then Some(u.amount) else LastAmount(usages[..|usages| - 1], k)
  }

  /** There is an amount for `k` exactly when some usage has the key `k`. */
  lemma {:induction false} LastAmountFound(usages: seq<Usage>, k: string)
    ensures LastAmount(usages, k).None? <==> forall u :: u in usages ==> UsageKey(u) != k
  {
    if usages != [] {
      var front, u := usages[..|usages| - 1], usages[|usages| - 1];
      assert usages == front + [u];
      if UsageKey(u) == k {
        assert u in usages;
      } else {
        LastAmountFound(front, k);
        if LastAmount(front, k).None? {
          forall v | v in usages
            ensures UsageKey(v) != k
          {
            assert v in front || v == u;
          }
        } else {
          var w :| w in front && UsageKey(w) == k;
          assert w in usages;
        }
      }
    }
  }

  /** Duplicate keys collapse to one entry holding the amount of the last usage. */
  lemma {:induction false} FlatUsagesLastWins(usages: seq<Usage>, k: string)
    ensures Lookup(FlatUsages(usages), k) == LastAmount(usages, k)
  {
    if usages != [] {
      FlatUsagesLastWins(usages[..|usages| - 1], k);
    }
  }

  /** Distinct (yarnId, projectId) pairs, the uniqueness the usage list is meant to keep. */
  predicate UniquePairs(usages: seq<Usage>) {
    forall i, j :: 0 <= i < j < |usages| ==>
      (usages[i].yarnId, usages[i].projectId) != (usages[j].yarnId, usages[j].projectId)
  }

  predicate Int32Ids(usages: seq<Usage>) {
    forall i :: 0 <= i < |usages| ==> IsInt32(usages[i].yarnId) && IsInt32(usages[i].projectId)
  }

  /** Two usages with Int ids share a key only when they share both ids. */
  lemma UsageKeyInjective(u: Usage, v: Usage)
    requires IsInt32(u.yarnId) && IsInt32(u.projectId) && IsInt32(v.yarnId) && IsInt32(v.projectId)
    requires UsageKey(u) == UsageKey(v)
    ensures u.yarnId == v.yarnId && u.projectId == v.projectId
  {
    ParseUsageKey(u);
    ParseUsageKey(v);
  }

  // ---------------------------------------------------------------------------
  // Loading
  // ---------------------------------------------------------------------------

  predicate KeyParses(e: (string, int)) {
    ParseKey(e.0).Some?
  }

  /** The usage an entry decodes to: `Usage(projectId, yarnId, amount)`, or none. */
  function DecodeEntry(e: (string, int)): (r: seq<Usage>)
    ensures |r| == if KeyParses(e) then 1 else 0
    ensures KeyParses(e) ==> r == [Usage(ParseKey(e.0).value.1, ParseKey(e.0).value.0, e.1)]
  {
    match ParseKey(e.0)
    case None => []
    case Some((yarnId, projectId)) => [Usage(projectId, yarnId, e.1)]
  }

  /** `usages.mapNotNull`: entries whose key fails to parse are dropped, the rest keep their order. */
  function DecodeUsages(entries: Entries): (r: seq<Usage>)
    ensures |r| == Count(entries, KeyParses)
  {
    if entries == [] then [] else DecodeEntry(entries[0]) + DecodeUsages(entries[1..])
  }

  /** Decoding a list that starts with `e`. */
  lemma DecodeUsagesCons(e: (string, int), rest: Entries)
    ensures DecodeUsages([e] + rest) == DecodeEntry(e) + DecodeUsages(rest)
  {
    assert ([e] + rest)[0] == e && ([e] + rest)[1..] == rest;
  }

  lemma {:induction false} DecodeUsagesConcat(a: Entries, b: Entries)
    ensures DecodeUsages(a + b) == DecodeUsages(a) + DecodeUsages(b)
  {
    if a != [] {
      assert a == [a[0]] + a[1..];
      assert a + b == [a[0]] + (a[1..] + b);
      DecodeUsagesConcat(a[1..], b);
      DecodeUsagesCons(a[0], a[1..] + b);
      DecodeUsagesCons(a[0], a[1..]);
    } else {
      assert a + b == b;
    }
  }

  /** The cache `load` builds from the file; a blank file gives empty data. */
  function LoadData(file: Option<Disk>): (d: AppData)
    ensures file.None? ==> d == EmptyData
    ensures file.Some? ==> d.yarns == file.value.yarns && d.projects == file.value.projects
    ensures file.Some? ==> |d.usages| == Count(file.value.usages, KeyParses)
  {
    match file
    case None => EmptyData
    case Some(disk) => AppData(disk.yarns, disk.projects, DecodeUsages(disk.usages))
  }

  /** What `save` writes for `data`. */
  function Encode(data: AppData): Disk {
    Disk(data.yarns, data.projects, FlatUsages(data.usages))
  }

  /** With distinct pairs, the last usage's key is not yet in the object built from the others. */
  lemma LastKeyIsNew(usages: seq<Usage>)
    requires usages != [] && UniquePairs(usages) && Int32Ids(usages)
    ensures Lookup(FlatUsages(usages[..|usages| - 1]), UsageKey(usages[|usages| - 1])).None?
  {
    var front, u := usages[..|usages| - 1], usages[|usages| - 1];
    forall v | v in front
      ensures UsageKey(v) != UsageKey(u)
    {
      var i :| 0 <= i < |front| && front[i] == v;
      assert v == usages[i];
      if UsageKey(v) == UsageKey(u) {
        UsageKeyInjective(v, u);
        assert false;
      }
    }
    LastAmountFound(front, UsageKey(u));
    FlatUsagesLastWins(front, UsageKey(u));
  }

  /** Round trip: loading what was saved gives back the usages, when their pairs are distinct. */
  lemma {:induction false} LoadSaved(usages: seq<Usage>)
    requires UniquePairs(usages) && Int32Ids(usages)
    ensures DecodeUsages(FlatUsages(usages)) == usages
  {
    if usages != [] {
      var front, u := usages[..|usages| - 1], usages[|usages| - 1];
      assert front + [u] == usages;
      assert UniquePairs(front) && Int32Ids(front) by {
        assert forall i :: 0 <= i < |front| ==> front[i] == usages[i];
      }
      LoadSaved(front);
      var e := (UsageKey(u), u.amount);
      LastKeyIsNew(usages);
      assert FlatUsages(usages) == FlatUsages(front) + [e];
      assert DecodeUsages([e]) == [u] by {
        ParseUsageKey(u);
        assert DecodeUsages([e]) == DecodeEntry(e) + DecodeUsages([]);
      }
      DecodeUsagesConcat(FlatUsages(front), [e]);
    }
  }

  /** The whole cache survives a save followed by a load. */
  lemma SaveThenLoad(data: AppData)
    requires UniquePairs(data.usages) && Int32Ids(data.usages)
    ensures LoadData(Some(Encode(data))) == data
  {
    LoadSaved(data.usages);
  }

  // ---------------------------------------------------------------------------
  // Yarns and projects
  // ---------------------------------------------------------------------------

  predicate HasId<T>(s: seq<T>, key: T -> int, id: int) {
    exists i :: 0 <= i < |s| && key(s[i]) == id
  }

  /** `firstOrNull { it.id == id }`. */
  function FirstById<T(==)>(s: seq<T>, key: T -> int, id: int): (r: Option<T>)
    ensures r.None? <==> !HasId(s, key, id)
    ensures r.Some? ==> r.value in s && key(r.value) == id
    ensures r.Some? ==> exists i :: (0 <= i < |s| && s[i] == r.value
      && forall j :: 0 <= j < i ==> key(s[j]) != id)
  {
    if s == [] then None
    else if key(s[0]) == id then Some(s[0])
    else
      var r := FirstById(s[1..], key, id);
      assert HasId(s[1..], key, id) ==> HasId(s, key, id);
      assert HasId(s, key, id) ==> HasId(s[1..], key, id) by {
        if HasId(s, key, id) {
          var i :| 0 <= i < |s| && key(s[i]) == id;
          assert key(s[1..][i - 1]) == id;
        }
      }
      if r.Some? then
        var i :| 0 <= i < |s[1..]| && s[1..][i] == r.value && forall j :: 0 <= j < i ==> key(s[1..][j]) != id;
        assert s[i + 1] == r.value;
        r
      else r
  }

  /**
   * `addOrUpdate*`: when some element has the id, every element with that id is
   * replaced by `x`; otherwise `x` is appended.
   */
  function AddOrUpdate<T(==)>(s: seq<T>, key: T -> int, x: T): (r: seq<T>)
    ensures HasId(s, key, key(x)) ==> |r| == |s|
    ensures HasId(s, key, key(x)) ==>
      forall i :: 0 <= i < |s| ==> r[i] == if key(s[i]) == key(x) then x else s[i]
    ensures !HasId(s, key, key(x)) ==> r == s + [x]
  {
    if HasId(s, key, key(x)) then ReplaceById(s, key, x) else s + [x]
  }

  function ReplaceById<T(==)>(s: seq<T>, key: T -> int, x: T): (r: seq<T>)
    ensures |r| == |s|
    ensures forall i :: 0 <= i < |s| ==> r[i] == if key(s[i]) == key(x) then x else s[i]
  {
    if s == [] then []
    else [if key(s[0]) == key(x) then x else s[0]] + ReplaceById(s[1..], key, x)
  }

  /** After an add or update, looking the id up finds exactly the new element. */
  lemma AddOrUpdateFinds<T>(s: seq<T>, key: T -> int, x: T)
    ensures FirstById(AddOrUpdate(s, key, x), key, key(x)) == Some(x)
  {
    var r := AddOrUpdate(s, key, x);
    assert r[|r| - 1] == x || HasId(s, key, key(x));
    if HasId(s, key, key(x)) {
      var i :| 0 <= i < |s| && key(s[i]) == key(x);
      assert key(r[i]) == key(x);
      var f := FirstById(r, key, key(x));
      var k :| 0 <= k < |r| && r[k] == f.value && forall j :: 0 <= j < k ==> key(r[j]) != key(x);
      assert key(s[k]) == key(x);
    } else {
      assert key(r[|s|]) == key(x);
    }
  }

  /** Elements with any other id are untouched: the same elements, in the same places. */
  lemma AddOrUpdateKeepsOthers<T>(s: seq<T>, key: T -> int, x: T, i: int)
    requires 0 <= i < |s| && key(s[i]) != key(x)
    ensures AddOrUpdate(s, key, x)[i] == s[i]
  {
  }

  /**
   * `delete*`: the entity and every usage that refers to it go; nothing is added, and
   * what remains is drawn from the old lists without duplication.
   */
  function YarnDeleted(d: AppData, id: int): (r: AppData)
    ensures r.projects == d.projects
    ensures !HasId(r.yarns, YarnId, id)
    ensures forall y :: y in r.yarns <==> y in d.yarns && y.id != id
    ensures multiset(r.yarns) <= multiset(d.yarns)
    ensures forall u :: u in r.usages <==> u in d.usages && u.yarnId != id
    ensures multiset(r.usages) <= multiset(d.usages)
  {
    var r := AppData(Filter(d.yarns, (y: Yarn) => y.id != id), d.projects,
                     Filter(d.usages, (u: Usage) => u.yarnId != id));
    assert forall i :: 0 <= i < |r.yarns| ==> r.yarns[i].id != id;
    FilterSubMultiset(d.yarns, (y: Yarn) => y.id != id);
    FilterSubMultiset(d.usages, (u: Usage) => u.yarnId != id);
    r
  }

  function ProjectDeleted(d: AppData, id: int): (r: AppData)
    ensures r.yarns == d.yarns
    ensures !HasId(r.projects, ProjectId, id)
    ensures forall p :: p in r.projects <==> p in d.projects && p.id != id
    ensures multiset(r.projects) <= multiset(d.projects)
    ensures forall u :: u in r.usages <==> u in d.usages && u.projectId != id
    ensures multiset(r.usages) <= multiset(d.usages)
  {
    var r := AppData(d.yarns, Filter(d.projects, (p: Project) => p.id != id),
                     Filter(d.usages, (u: Usage) => u.projectId != id));
    assert forall i :: 0 <= i < |r.projects| ==> r.projects[i].id != id;
    FilterSubMultiset(d.projects, (p: Project) => p.id != id);
    FilterSubMultiset(d.usages, (u: Usage) => u.projectId != id);
    r
  }

  function YarnAddedOrUpdated(d: AppData, y: Yarn): AppData {
    d.(yarns := AddOrUpdate(d.yarns, YarnId, y))
  }

  function ProjectAddedOrUpdated(d: AppData, p: Project): AppData {
    d.(projects := AddOrUpdate(d.projects, ProjectId, p))
  }

  /** `getYarnById` throws for an unknown id. */
  datatype LookupError = NoSuchYarn(yarnId: int) | NoSuchProject(projectId: int)

  function GetYarnById(d: AppData, id: int): (r: Result<Yarn, LookupError>)
    ensures r.Err? <==> !HasId(d.yarns, YarnId, id)
    ensures r.Err? ==> r.error == NoSuchYarn(id)
    ensures r.Ok? ==> r.value in d.yarns && r.value.id == id
  {
    match FirstById(d.yarns, YarnId, id)
    case None => Err(NoSuchYarn(id))
    case Some(y) => Ok(y)
  }

  function GetProjectById(d: AppData, id: int): (r: Result<Project, LookupError>)
    ensures r.Err? <==> !HasId(d.projects, ProjectId, id)
    ensures r.Err? ==> r.error == NoSuchProject(id)
    ensures r.Ok? ==> r.value in d.projects && r.value.id == id
  {
    match FirstById(d.projects, ProjectId, id)
    case None => Err(NoSuchProject(id))
    case Some(p) => Ok(p)
  }

  function MaxId<T>(s: seq<T>, key: T -> int): (m: int)
    requires s != []
    ensures forall i :: 0 <= i < |s| ==> key(s[i]) <= m
    ensures exists i :: 0 <= i < |s| && key(s[i]) == m
    ensures (forall i :: 0 <= i < |s| ==> IsInt32(key(s[i]))) ==> IsInt32(m)
  {
    if |s| == 1 then key(s[0])
    else
      var m := MaxId(s[1..], key);
      assert forall i :: 1 <= i < |s| ==> key(s[i]) == key(s[1..][i - 1]);
      if key(s[0]) >= m then key(s[0]) else m
  }

  /** `(maxOfOrNull { it.id } ?: 0) + 1`, with `Int` addition wrapping past `Int.MAX_VALUE`. */
  function NextId<T>(s: seq<T>, key: T -> int): (r: int)
    requires forall i :: 0 <= i < |s| ==> IsInt32(key(s[i]))
    ensures IsInt32(r)
    ensures s == [] ==> r == 1
    ensures (forall i :: 0 <= i < |s| ==> key(s[i]) < INT_MAX) ==>
      forall i :: 0 <= i < |s| ==> key(s[i]) < r
    ensures s != [] && !HasId(s, key, INT_MAX) ==> exists i :: 0 <= i < |s| && key(s[i]) == r - 1
    ensures HasId(s, key, INT_MAX) ==> r == INT_MIN
  {
    var m := if s == [] then 0 else MaxId(s, key);
    if m == INT_MAX then INT_MIN else m + 1
  }

  /** A next id below the wrap-around belongs to no existing element. */
  lemma NextIdFresh<T>(s: seq<T>, key: T -> int)
    requires forall i :: 0 <= i < |s| ==> IsInt32(key(s[i])) && key(s[i]) < INT_MAX
    ensures !HasId(s, key, NextId(s, key))
  {
  }

  // ---------------------------------------------------------------------------
  // Usages
  // ---------------------------------------------------------------------------

  /** An assignment entry `(yarnId, amount)` that `filterValues { it > 0 }` keeps. */
  predicate PositiveEntry(e: (int, int)) {
    e.1 > 0
  }

  /**
   * The usages a `setProjectAssignments` map creates: one per entry with a positive
   * amount, in the entries' order, carrying that entry's yarn and amount.
   */
  function NewUsages(projectId: int, assignments: seq<(int, int)>): (r: seq<Usage>)
    ensures |r| == |Filter(assignments, PositiveEntry)|
    ensures forall i :: 0 <= i < |r| ==>
      r[i] == Usage(projectId, Filter(assignments, PositiveEntry)[i].0, Filter(assignments, PositiveEntry)[i].1)
    ensures forall i :: 0 <= i < |r| ==> r[i].projectId == projectId && r[i].amount > 0
  {
    if assignments == [] then []
    else
      var (yarnId, amount) := assignments[0];
      var rest := NewUsages(projectId, assignments[1..]);
      ghost var kept := Filter(assignments[1..], PositiveEntry);
      assert Filter(assignments, PositiveEntry) == (if amount > 0 then [assignments[0]] else []) + kept;
      (if amount > 0 then [Usage(projectId, yarnId, amount)] else []) + rest
  }

  /**
   * `setProjectAssignments`: the usages of other projects, in their order, followed by
   * the new usages of this project.
   */
  function AssignmentsSet(d: AppData, projectId: int, assignments: seq<(int, int)>): (r: AppData)
    ensures r.yarns == d.yarns && r.projects == d.projects
    ensures r.usages == Filter(d.usages, (u: Usage) => u.projectId != projectId) + NewUsages(projectId, assignments)
  {
    d.(usages := Filter(d.usages, (u: Usage) => u.projectId != projectId) + NewUsages(projectId, assignments))
  }

  /** After setting a project's assignments, its usages are exactly the new ones. */
  lemma SetAssignmentsOwnProject(d: AppData, projectId: int, assignments: seq<(int, int)>)
    ensures UsagesForProject(AssignmentsSet(d, projectId, assignments), projectId)
      == NewUsages(projectId, assignments)
  {
    var kept := Filter(d.usages, (u: Usage) => u.projectId != projectId);
    var added := NewUsages(projectId, assignments);
    FilterConcat(kept, added, (u: Usage) => u.projectId == projectId);
    FilterNone(kept, (u: Usage) => u.projectId == projectId);
    FilterAll(added, (u: Usage) => u.projectId == projectId);
  }

  /** ... and every other project keeps exactly the usages it had. */
  lemma SetAssignmentsOtherProject(d: AppData, projectId: int, assignments: seq<(int, int)>, other: int)
    requires other != projectId
    ensures UsagesForProject(AssignmentsSet(d, projectId, assignments), other)
      == UsagesForProject(d, other)
  {
    var keep := (u: Usage) => u.projectId != projectId;
    var mine := (u: Usage) => u.projectId == other;
    var kept := Filter(d.usages, keep);
    var added := NewUsages(projectId, assignments);
    FilterConcat(kept, added, mine);
    FilterNone(added, mine);
    FilterOfFilter(d.usages, keep, mine);
  }

  predicate SamePair(u: Usage, projectId: int, yarnId: int) {
    u.projectId == projectId && u.yarnId == yarnId
  }

  /** `upsertUsage`: every usage with the same pair is dropped and `u` goes last. */
  function UsageUpserted(d: AppData, u: Usage): (r: AppData)
    ensures r.yarns == d.yarns && r.projects == d.projects
    ensures |r.usages| > 0 && r.usages[|r.usages| - 1] == u
    ensures Count(r.usages, (v: Usage) => SamePair(v, u.projectId, u.yarnId)) == 1
    ensures forall v :: v in r.usages <==> v == u || (v in d.usages && !SamePair(v, u.projectId, u.yarnId))
  {
    var same := (v: Usage) => SamePair(v, u.projectId, u.yarnId);
    var without := Filter(d.usages, (v: Usage) => !SamePair(v, u.projectId, u.yarnId));
    FilterConcat(without, [u], same);
    FilterNone(without, same);
    assert Filter([u], same) == [u];
    d.(usages := without + [u])
  }

  /** `removeUsage`: no usage with the pair remains; the others stay. */
  function UsageRemoved(d: AppData, projectId: int, yarnId: int): (r: AppData)
    ensures r.yarns == d.yarns && r.projects == d.projects
    ensures forall v :: v in r.usages <==> v in d.usages && !SamePair(v, projectId, yarnId)
  {
    d.(usages := Filter(d.usages, (v: Usage) => !SamePair(v, projectId, yarnId)))
  }

  // ---------------------------------------------------------------------------
  // Queries
  // ---------------------------------------------------------------------------

  function UsagesForProject(d: AppData, projectId: int): (r: seq<Usage>)
    ensures forall u :: u in r <==> u in d.usages && u.projectId == projectId
  {
    Filter(d.usages, (u: Usage) => u.projectId == projectId)
  }

  function UsagesForYarn(d: AppData, yarnId: int): (r: seq<Usage>)
    ensures forall u :: u in r <==> u in d.usages && u.yarnId == yarnId
  {
    OfYarn(d.usages, yarnId)
  }

  function OfYarn(usages: seq<Usage>, yarnId: int): seq<Usage> {
    Filter(usages, (u: Usage) => u.yarnId == yarnId)
  }

  function SumAmounts(usages: seq<Usage>): int {
    if usages == [] then 0 else usages[0].amount + SumAmounts(usages[1..])
  }

  /** `assignedForYarn`: the summed amounts of the yarn's usages. */
  function AssignedForYarn(d: AppData, yarnId: int): int {
    SumAmounts(UsagesForYarn(d, yarnId))
  }

  /** The position of the first usage with the pair, or `|usages|` when there is none. */
  function FirstPairIndex(usages: seq<Usage>, yarnId: int, projectId: int): (k: nat)
    ensures k <= |usages|
    ensures forall j :: 0 <= j < k ==> !SamePair(usages[j], projectId, yarnId)
    ensures k < |usages| ==> SamePair(usages[k], projectId, yarnId)
  {
    if usages == [] || SamePair(usages[0], projectId, yarnId) then 0
    else FirstPairIndex(usages[1..], yarnId, projectId) + 1
  }

  /** `assignedForYarnInProject`: the amount of the first usage with the pair, or 0. */
  function AssignedInProject(usages: seq<Usage>, yarnId: int, projectId: int): (r: int)
    ensures var k := FirstPairIndex(usages, yarnId, projectId);
      r == if k < |usages| then usages[k].amount else 0
  {
    if usages == [] then 0
    else if SamePair(usages[0], projectId, yarnId) then usages[0].amount
    else AssignedInProject(usages[1..], yarnId, projectId)
  }

  /**
   * `availableForYarn`: the yarn's amount minus what other projects hold of it, never
   * below zero; `getYarnById` throws for an unknown yarn.
   */
  function AvailableForYarn(d: AppData, yarnId: int, forProjectId: Option<int>): (r: Result<int, LookupError>)
    ensures r.Err? <==> !HasId(d.yarns, YarnId, yarnId)
    ensures r.Ok? ==> r.value >= 0
    ensures r.Ok? && forProjectId.None? ==>
      r.value == Max0(GetYarnById(d, yarnId).value.amount - AssignedForYarn(d, yarnId))
  {
    match GetYarnById(d, yarnId)
    case Err(e) => Err(e)
    case Ok(yarn) =>
      var total := AssignedForYarn(d, yarnId);
      var current := if forProjectId.Some? then AssignedInProject(d.usages, yarnId, forProjectId.value) else 0;
      Ok(Max0(yarn.amount - (total - current)))
  }

  function Max0(x: int): (r: int)
    ensures r >= 0 && r >= x && (r == x || r == 0)
  {
    if x < 0 then 0 else x
  }

  /** The usages of the yarn held by projects other than `projectId`. */
  function HeldElsewhere(usages: seq<Usage>, yarnId: int, projectId: int): int {
    SumAmounts(Elsewhere(usages, yarnId, projectId))
  }

  function Elsewhere(usages: seq<Usage>, yarnId: int, projectId: int): seq<Usage> {
    Filter(usages, (u: Usage) => u.yarnId == yarnId && u.projectId != projectId)
  }

  /** `OfYarn` takes the amount of its first usage exactly when that usage is of the yarn. */
  lemma OfYarnCons(usages: seq<Usage>, yarnId: int)
    requires usages != []
    ensures SumAmounts(OfYarn(usages, yarnId))
      == (if usages[0].yarnId == yarnId then usages[0].amount else 0) + SumAmounts(OfYarn(usages[1..], yarnId))
  {
    var c := OfYarn(usages, yarnId);
    if usages[0].yarnId == yarnId {
      assert c == [usages[0]] + OfYarn(usages[1..], yarnId);
      assert c[1..] == OfYarn(usages[1..], yarnId);
    } else {
      assert c == OfYarn(usages[1..], yarnId);
    }
  }

  /** `Elsewhere` takes the amount of its first usage exactly when another project holds the yarn there. */
  lemma ElsewhereCons(usages: seq<Usage>, yarnId: int, projectId: int)
    requires usages != []
    ensures HeldElsewhere(usages, yarnId, projectId)
      == (if usages[0].yarnId == yarnId && usages[0].projectId != projectId then usages[0].amount else 0)
        + HeldElsewhere(usages[1..], yarnId, projectId)
  {
    var c := Elsewhere(usages, yarnId, projectId);
    if usages[0].yarnId == yarnId && usages[0].projectId != projectId {
      assert c == [usages[0]] + Elsewhere(usages[1..], yarnId, projectId);
      assert c[1..] == Elsewhere(usages[1..], yarnId, projectId);
    } else {
      assert c == Elsewhere(usages[1..], yarnId, projectId);
    }
  }

  /** Dropping the first usage keeps the pairs distinct, and no later usage repeats its pair. */
  lemma UniquePairsTail(usages: seq<Usage>)
    requires usages != [] && UniquePairs(usages)
    ensures UniquePairs(usages[1..])
    ensures forall i :: 0 <= i < |usages[1..]| ==>
      !SamePair(usages[1..][i], usages[0].projectId, usages[0].yarnId)
  {
    var rest := usages[1..];
    forall i, j | 0 <= i < j < |rest|
      ensures (rest[i].yarnId, rest[i].projectId) != (rest[j].yarnId, rest[j].projectId)
    {
      assert rest[i] == usages[i + 1] && rest[j] == usages[j + 1];
    }
    forall i | 0 <= i < |rest|
      ensures !SamePair(rest[i], usages[0].projectId, usages[0].yarnId)
    {
      assert rest[i] == usages[i + 1];
    }
  }

  /**
   * With unique pairs, the project's own usage is the only one subtracted back, so the
   * result is the amount less what the other projects hold.
   */
  lemma {:induction false} TotalSplitsByProject(usages: seq<Usage>, yarnId: int, projectId: int)
    requires UniquePairs(usages)
    ensures SumAmounts(OfYarn(usages, yarnId))
      == AssignedInProject(usages, yarnId, projectId) + HeldElsewhere(usages, yarnId, projectId)
  {
    if usages != [] {
      UniquePairsTail(usages);
      TotalSplitsByProject(usages[1..], yarnId, projectId);
      OfYarnCons(usages, yarnId);
      ElsewhereCons(usages, yarnId, projectId);
    }
  }

  lemma AvailableIgnoresOwnProject(d: AppData, yarnId: int, projectId: int)
    requires UniquePairs(d.usages) && HasId(d.yarns, YarnId, yarnId)
    ensures AvailableForYarn(d, yarnId, Some(projectId))
      == Ok(Max0(GetYarnById(d, yarnId).value.amount - HeldElsewhere(d.usages, yarnId, projectId)))
  {
    AssignedSplitsByProject(d, yarnId, projectId);
    AvailableFromSplit(d, yarnId, projectId, HeldElsewhere(d.usages, yarnId, projectId));
  }

  /** `assignedForYarn` is the project's own usage plus what the other projects hold. */
  lemma AssignedSplitsByProject(d: AppData, yarnId: int, projectId: int)
    requires UniquePairs(d.usages)
    ensures AssignedForYarn(d, yarnId)
      == AssignedInProject(d.usages, yarnId, projectId) + HeldElsewhere(d.usages, yarnId, projectId)
  {
    TotalSplitsByProject(d.usages, yarnId, projectId);
  }

  /** Availability for a project, once the yarn's total is split into that project's share and the rest. */
  lemma AvailableFromSplit(d: AppData, yarnId: int, projectId: int, elsewhere: int)
    requires HasId(d.yarns, YarnId, yarnId)
    requires AssignedForYarn(d, yarnId) == AssignedInProject(d.usages, yarnId, projectId) + elsewhere
    ensures AvailableForYarn(d, yarnId, Some(projectId))
      == Ok(Max0(GetYarnById(d, yarnId).value.amount - elsewhere))
  {
  }

  // ---------------------------------------------------------------------------
  // The repository object
  // ---------------------------------------------------------------------------

  /**
   * The repository: a cache of the data and the file it mirrors, held as its decoded
   * structure (`None` for a blank file).
   */
  class JsonRepository {
    var cache: AppData
    var file: Option<Disk>

    constructor (file: Option<Disk>)
      ensures cache == EmptyData && this.file == file
    {
      cache := EmptyData;
      this.file := file;
    }

    /** `load`: the cache becomes the file's content, usages decoded. */
    method Load() returns (d: AppData)
      modifies this
      ensures cache == LoadData(file) && d == cache
      ensures file == old(file)
    {
      cache := LoadData(file);
      d := cache;
    }

    /** `save`: the cache becomes `data`, and the file holds it with flattened usages. */
    method Save(data: AppData) returns (d: AppData)
      modifies this
      ensures cache == data && d == data
      ensures file == Some(Encode(data))
    {
      cache := data;
      var flat: Entries := [];
      for i := 0 to |data.usages|
        invariant flat == FlatUsages(data.usages[..i])
      {
        var u := data.usages[i];
        assert data.usages[..i + 1][..i] == data.usages[..i];
        flat := Put(flat, UsageKey(u), u.amount);
      }
      assert data.usages[..|data.usages|] == data.usages;
      file := Some(Disk(data.yarns, data.projects, flat));
      d := cache;
    }

    method AddOrUpdateYarn(y: Yarn) returns (d: AppData)
      modifies this
      ensures cache == YarnAddedOrUpdated(old(cache), y) && d == cache
      ensures file == Some(Encode(cache))
    {
      d := Save(YarnAddedOrUpdated(cache, y));
    }

    method DeleteYarn(id: int) returns (d: AppData)
      modifies this
      ensures cache == YarnDeleted(old(cache), id) && d == cache
      ensures file == Some(Encode(cache))
    {
      d := Save(YarnDeleted(cache, id));
    }

    method AddOrUpdateProject(p: Project) returns (d: AppData)
      modifies this
      ensures cache == ProjectAddedOrUpdated(old(cache), p) && d == cache
      ensures file == Some(Encode(cache))
    {
      d := Save(ProjectAddedOrUpdated(cache, p));
    }

    method DeleteProject(id: int) returns (d: AppData)
      modifies this
      ensures cache == ProjectDeleted(old(cache), id) && d == cache
      ensures file == Some(Encode(cache))
    {
      d := Save(ProjectDeleted(cache, id));
    }

    method SetProjectAssignments(projectId: int, assignments: seq<(int, int)>) returns (d: AppData)
      modifies this
      ensures cache == AssignmentsSet(old(cache), projectId, assignments) && d == cache
      ensures file == Some(Encode(cache))
    {
      d := Save(AssignmentsSet(cache, projectId, assignments));
    }

    method UpsertUsage(u: Usage) returns (d: AppData)
      modifies this
      ensures cache == UsageUpserted(old(cache), u) && d == cache
      ensures file == Some(Encode(cache))
    {
      d := Save(UsageUpserted(cache, u));
    }

    method RemoveUsage(projectId: int, yarnId: int) returns (d: AppData)
      modifies this
      ensures cache == UsageRemoved(old(cache), projectId, yarnId) && d == cache
      ensures file == Some(Encode(cache))
    {
      d := Save(UsageRemoved(cache, projectId, yarnId));
    }
  }
}
