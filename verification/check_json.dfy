/**
 * The stash migration script: it checks that a decoded stash document has its required
 * lists, renames the legacy `usages` list to `assignments`, gives every assignment without
 * an `"id"` a random id no earlier assignment uses, records ids that repeat, and warns
 * about assignments whose project or yarn reference does not match exactly one entity.
 */
module CheckJson {
  import opened Wrappers
  import opened Lists

  // ---------------------------------------------------------------------------
  // Python values
  // ---------------------------------------------------------------------------

  /** The JSON scalars an id or a reference can hold, as Python decodes them. */
  datatype Value = Null | Bool(b: bool) | Int(i: int) | Str(s: string)

  /** Python equality and hashing identify `True` with `1` and `False` with `0`. */
  function Canon(v: Value): (r: Value)
    ensures !r.Bool?
    ensures !v.Bool? ==> r == v
  {
    match v
    case Bool(b) => Int(if b then 1 else 0)
    case _ => v
  }

  /** `==` between two decoded values. */
  predicate PyEq(a: Value, b: Value) {
    Canon(a) == Canon(b)
  }

  /** A JSON object: its keys and their values. */
  type Entity = map<string, Value>

  /** `e.get(k)`: the value under `k`, or `None` when the key is absent. */
  function Get(e: Entity, k: string): (r: Value)
    ensures k !in e ==> r == Null
    ensures k in e ==> r == e[k]
  {
    if k in e then e[k] else Null
  }

  /** `random.getrandbits(31)` draws from [0, 2^31). */
  const ID_BOUND := 0x8000_0000

  predicate DrawsInRange(draws: seq<int>) {
    forall i :: 0 <= i < |draws| ==> 0 <= draws[i] < ID_BOUND
  }

  // ---------------------------------------------------------------------------
  // Reference checks
  // ---------------------------------------------------------------------------

  /** `len(get_matches(entities, "id", target))`: the entities whose `"id"` equals `target`. */
  function Matches(entities: seq<Entity>, target: Value): nat {
    Count(entities, (e: Entity) => PyEq(Get(e, "id"), target))
  }

  /** No match exactly when no entity's `"id"` equals the target; never more matches than entities. */
  lemma MatchesNone(entities: seq<Entity>, target: Value)
    ensures Matches(entities, target) <= |entities|
    ensures Matches(entities, target) == 0 <==> forall i :: 0 <= i < |entities| ==> !PyEq(Get(entities[i], "id"), target)
  {
    var r := Filter(entities, (e: Entity) => PyEq(Get(e, "id"), target));
    if r != [] {
      assert r[0] in entities;
    }
  }

  datatype RefKind = ProjectRef | YarnRef

  /** A "Validation Warning" line: whose reference, of which kind, to what, and how many matched. */
  datatype Warning = Warning(assignmentId: Value, kind: RefKind, referenced: Value, matches: nat)

  /** Both references resolve to exactly one entity. */
  predicate Linked(a: Entity, yarns: seq<Entity>, projects: seq<Entity>) {
    Matches(projects, Get(a, "projectId")) == 1 && Matches(yarns, Get(a, "yarnId")) == 1
  }

  /**
   * The warnings printed for one assignment: the project reference is checked before the
   * yarn reference, and each is reported when it does not match exactly one entity.
   */
  function RefWarnings(a: Entity, yarns: seq<Entity>, projects: seq<Entity>): (r: seq<Warning>)
    ensures r == [] <==> Linked(a, yarns, projects)
  {
    var projectId, yarnId := Get(a, "projectId"), Get(a, "yarnId");
    var inProjects, inYarns := Matches(projects, projectId), Matches(yarns, yarnId);
    (if inProjects != 1 then [Warning(Get(a, "id"), ProjectRef, projectId, inProjects)] else [])
      + (if inYarns != 1 then [Warning(Get(a, "id"), YarnRef, yarnId, inYarns)] else [])
  }

  /**
   * Each warning names the assignment's id and a count other than one; a bad project
   * reference is reported first and a bad yarn reference last.
   */
  lemma RefWarningsOrder(a: Entity, yarns: seq<Entity>, projects: seq<Entity>)
    ensures var r := RefWarnings(a, yarns, projects);
      forall i :: 0 <= i < |r| ==> r[i].matches != 1 && r[i].assignmentId == Get(a, "id")
    ensures var r := RefWarnings(a, yarns, projects);
      Matches(projects, Get(a, "projectId")) != 1 ==>
        r != [] && r[0] == Warning(Get(a, "id"), ProjectRef, Get(a, "projectId"), Matches(projects, Get(a, "projectId")))
    ensures var r := RefWarnings(a, yarns, projects);
      Matches(yarns, Get(a, "yarnId")) != 1 ==>
        r != [] && r[|r| - 1] == Warning(Get(a, "id"), YarnRef, Get(a, "yarnId"), Matches(yarns, Get(a, "yarnId")))
  {
  }

  // ---------------------------------------------------------------------------
  // The assignment loop, one assignment at a time
  // ---------------------------------------------------------------------------

  /**
   * The loop's state: the assignments processed so far, `used_ids` (held by Python
   * equality, so as canonical values), `new_id_count`, `duplicate_ids`, the warnings
   * printed, and the position of the next random draw.
   */
  datatype State = State(
    out: seq<Entity>, used: set<Value>, newIds: nat, duplicates: seq<Value>, warnings: seq<Warning>, cursor: nat)

  const Initial := State([], {}, 0, [], [], 0)

  /** The draw the `while new_id in used_ids` loop settles on, or none when the draws run out. */
  function FirstUnused(used: set<Value>, draws: seq<int>, from: nat): (r: Option<nat>)
    ensures r.Some? ==> from <= r.value < |draws| && Int(draws[r.value]) !in used
    decreases |draws| - from
  {
    if from >= |draws| then None
    else if Int(draws[from]) !in used then Some(from)
    else FirstUnused(used, draws, from + 1)
  }

  /** The loop skips only used draws, and finds none exactly when every remaining draw is used. */
  lemma {:induction false} FirstUnusedSkipsUsed(used: set<Value>, draws: seq<int>, from: nat)
    ensures var r := FirstUnused(used, draws, from);
      r.Some? ==> forall j :: from <= j < r.value ==> Int(draws[j]) in used
    ensures FirstUnused(used, draws, from).None? <==> forall j :: from <= j < |draws| ==> Int(draws[j]) in used
    decreases |draws| - from
  {
    if from < |draws| && Int(draws[from]) in used {
      FirstUnusedSkipsUsed(used, draws, from + 1);
    }
  }

  /**
   * One pass of the loop body: an assignment without an `"id"` key gets the next unused
   * draw; one with an id keeps it, and the id is recorded as a duplicate when an earlier
   * assignment already used it. Then its references are checked.
   */
  function Step(a: Entity, st: State, draws: seq<int>, yarns: seq<Entity>, projects: seq<Entity>): Option<State> {
    if "id" !in a then
      match FirstUnused(st.used, draws, st.cursor)
      case None => None
      case Some(k) =>
        var b := a["id" := Int(draws[k])];
        Some(State(st.out + [b], st.used + {Int(draws[k])}, st.newIds + 1, st.duplicates,
          st.warnings + RefWarnings(b, yarns, projects), k + 1))
    else
      var id := a["id"];
      Some(State(st.out + [a], st.used + {Canon(id)}, st.newIds,
        if Canon(id) in st.used then st.duplicates + [id] else st.duplicates,
        st.warnings + RefWarnings(a, yarns, projects), st.cursor))
  }

  /** The whole loop over `assignments`, in list order; none when the draws run out. */
  function Run(assignments: seq<Entity>, st: State, draws: seq<int>, yarns: seq<Entity>, projects: seq<Entity>)
    : Option<State>
    decreases |assignments|
  {
    if assignments == [] then Some(st)
    else
      match Step(assignments[0], st, draws, yarns, projects)
      case None => None
      case Some(next) => Run(assignments[1..], next, draws, yarns, projects)
  }

  /** What an assignment becomes: it has an `"id"`; one it had is kept; a new one is a 31-bit draw and the only change. */
  predicate Migrated(a: Entity, b: Entity) {
    && "id" in b
    && ("id" in a ==> b == a)
    && ("id" !in a ==> b["id"].Int? && 0 <= b["id"].i < ID_BOUND && b == a["id" := b["id"]])
  }

  /** The canonical ids of a list of entities. */
  function IdsOf(s: seq<Entity>): (r: set<Value>)
    ensures forall i :: 0 <= i < |s| ==> Canon(Get(s[i], "id")) in r
  {
    if s == [] then {} else {Canon(Get(s[0], "id"))} + IdsOf(s[1..])
  }

  /** A state whose `used_ids` holds the id of every assignment it has processed. */
  predicate Consistent(st: State) {
    forall j :: 0 <= j < |st.out| ==> Canon(Get(st.out[j], "id")) in st.used
  }

  /** The id of the `k`-th output is new: outside `used0` and unlike every id before it. */
  predicate FreshAt(out: seq<Entity>, k: nat, used0: set<Value>)
    requires k < |out|
  {
    && "id" in out[k]
    && out[k]["id"] !in used0
    && forall j :: 0 <= j < k ==> Canon(Get(out[j], "id")) != out[k]["id"]
  }

  predicate LacksId(e: Entity) {
    "id" !in e
  }

  // ---------------------------------------------------------------------------
  // Properties of the loop
  // ---------------------------------------------------------------------------

  /**
   * One pass appends one migrated assignment and adds its id to `used_ids`; a generated
   * id was not in `used_ids` before.
   */
  lemma StepFacts(a: Entity, st: State, draws: seq<int>, yarns: seq<Entity>, projects: seq<Entity>)
    requires DrawsInRange(draws)
    ensures var next := Step(a, st, draws, yarns, projects);
      next.Some? ==> (
        && |next.value.out| == |st.out| + 1
        && next.value.out == st.out + [next.value.out[|st.out|]]
        && Migrated(a, next.value.out[|st.out|])
        && next.value.used == st.used + {Canon(Get(next.value.out[|st.out|], "id"))}
        && (LacksId(a) ==> next.value.out[|st.out|]["id"] !in st.used))
  {
  }

  /** One pass keeps `used_ids` holding every processed id, and a generated id is fresh at its place. */
  lemma StepKeepsConsistent(a: Entity, st: State, draws: seq<int>, yarns: seq<Entity>, projects: seq<Entity>)
    requires DrawsInRange(draws) && Consistent(st)
    ensures var next := Step(a, st, draws, yarns, projects);
      next.Some? ==> (|next.value.out| == |st.out| + 1 && Consistent(next.value)
        && (LacksId(a) ==> FreshAt(next.value.out, |st.out|, st.used)))
  {
    var next := Step(a, st, draws, yarns, projects);
    if next.Some? {
      StepFacts(a, st, draws, yarns, projects);
      var n := |st.out|;
      forall j | 0 <= j < n
        ensures next.value.out[j] == st.out[j]
      {
      }
    }
  }

  /** Freshness at a place depends only on the entries up to that place. */
  lemma FreshAtPrefix(out: seq<Entity>, prefix: seq<Entity>, k: nat, used0: set<Value>)
    requires k < |prefix| <= |out| && out[..|prefix|] == prefix && FreshAt(prefix, k, used0)
    ensures FreshAt(out, k, used0)
  {
    forall j | 0 <= j <= k
      ensures out[j] == prefix[j]
    {
      assert out[j] == out[..|prefix|][j];
    }
  }

  /** One pass adds the id to `used_ids` or one entry to `duplicate_ids`, never both. */
  lemma StepCounts(a: Entity, st: State, draws: seq<int>, yarns: seq<Entity>, projects: seq<Entity>)
    ensures var next := Step(a, st, draws, yarns, projects);
      next.Some? ==> (|next.value.used| + |next.value.duplicates| == |st.used| + |st.duplicates| + 1
        && st.used <= next.value.used && |st.duplicates| <= |next.value.duplicates|
        && next.value.duplicates[..|st.duplicates|] == st.duplicates)
  {
    var next := Step(a, st, draws, yarns, projects);
    if next.Some? && "id" in a {
      var c := Canon(a["id"]);
      if c in st.used {
        assert st.used + {c} == st.used;
      }
    }
  }

  /** The output starts with what was already processed and has one entry per assignment. */
  lemma {:induction false} RunExtends(
    assignments: seq<Entity>, st: State, draws: seq<int>, yarns: seq<Entity>, projects: seq<Entity>)
    ensures var r := Run(assignments, st, draws, yarns, projects);
      r.Some? ==> |r.value.out| == |st.out| + |assignments| && r.value.out[..|st.out|] == st.out
    decreases |assignments|
  {
    if assignments != [] {
      var next := Step(assignments[0], st, draws, yarns, projects);
      if next.Some? {
        RunExtends(assignments[1..], next.value, draws, yarns, projects);
        var r := Run(assignments, st, draws, yarns, projects);
        if r.Some? {
          var n := |st.out|;
          assert next.value.out[..n] == st.out;
          assert r.value.out[..n] == r.value.out[..n + 1][..n];
        }
      }
    }
  }

  /** Each assignment is migrated into the output entry `offset` places further on. */
  predicate AllMigrated(assignments: seq<Entity>, out: seq<Entity>, offset: nat)
    requires offset + |assignments| <= |out|
  {
    forall i :: 0 <= i < |assignments| ==> Migrated(assignments[i], out[offset + i])
  }

  lemma AllMigratedCons(assignments: seq<Entity>, out: seq<Entity>, offset: nat)
    requires assignments != [] && offset + |assignments| <= |out|
    requires Migrated(assignments[0], out[offset]) && AllMigrated(assignments[1..], out, offset + 1)
    ensures AllMigrated(assignments, out, offset)
  {
    forall i | 1 <= i < |assignments|
      ensures Migrated(assignments[i], out[offset + i])
    {
      assert assignments[i] == assignments[1..][i - 1];
    }
  }

  /** The assignments keep their number and order, and each is migrated as described. */
  lemma {:induction false} RunMigratesEach(
    assignments: seq<Entity>, st: State, draws: seq<int>, yarns: seq<Entity>, projects: seq<Entity>)
    requires DrawsInRange(draws)
    ensures var r := Run(assignments, st, draws, yarns, projects);
      r.Some? ==> (|r.value.out| == |st.out| + |assignments| && AllMigrated(assignments, r.value.out, |st.out|))
    decreases |assignments|
  {
    RunExtends(assignments, st, draws, yarns, projects);
    if assignments != [] {
      var a := assignments[0];
      var next := Step(a, st, draws, yarns, projects);
      if next.Some? {
        var n := |st.out|;
        StepFacts(a, st, draws, yarns, projects);
        RunMigratesEach(assignments[1..], next.value, draws, yarns, projects);
        RunExtends(assignments[1..], next.value, draws, yarns, projects);
        var r := Run(assignments, st, draws, yarns, projects);
        if r.Some? {
          var out := r.value.out;
          assert out[n] == next.value.out[n] by {
            assert out[..n + 1] == next.value.out;
          }
          AllMigratedCons(assignments, out, n);
        }
      }
    }
  }

  /** `used_ids` grows by exactly the ids of the assignments processed. */
  lemma {:induction false} RunUsedIds(
    assignments: seq<Entity>, st: State, draws: seq<int>, yarns: seq<Entity>, projects: seq<Entity>)
    requires DrawsInRange(draws)
    ensures var r := Run(assignments, st, draws, yarns, projects);
      r.Some? ==> |st.out| <= |r.value.out| && r.value.used == st.used + IdsOf(r.value.out[|st.out|..])
    decreases |assignments|
  {
    RunExtends(assignments, st, draws, yarns, projects);
    if assignments == [] {
      assert st.out[|st.out|..] == [];
    } else {
      var next := Step(assignments[0], st, draws, yarns, projects);
      if next.Some? {
        var n := |st.out|;
        StepFacts(assignments[0], st, draws, yarns, projects);
        RunUsedIds(assignments[1..], next.value, draws, yarns, projects);
        RunExtends(assignments[1..], next.value, draws, yarns, projects);
        var r := Run(assignments, st, draws, yarns, projects);
        if r.Some? {
          var out := r.value.out;
          assert out[n] == next.value.out[n] by {
            assert out[..n + 1] == next.value.out;
          }
          assert out[n..][1..] == out[n + 1..];
          assert IdsOf(out[n..]) == {Canon(Get(out[n], "id"))} + IdsOf(out[n + 1..]);
        }
      }
    }
  }

  /** Every assignment that lacked an id has a fresh one `offset` places further on in the output. */
  predicate AllFresh(assignments: seq<Entity>, out: seq<Entity>, offset: nat, used0: set<Value>)
    requires offset + |assignments| <= |out|
  {
    forall i :: 0 <= i < |assignments| && LacksId(assignments[i]) ==> FreshAt(out, offset + i, used0)
  }

  lemma AllFreshCons(assignments: seq<Entity>, out: seq<Entity>, offset: nat, used0: set<Value>, used1: set<Value>)
    requires assignments != [] && offset + |assignments| <= |out| && used0 <= used1
    requires LacksId(assignments[0]) ==> FreshAt(out, offset, used0)
    requires AllFresh(assignments[1..], out, offset + 1, used1)
    ensures AllFresh(assignments, out, offset, used0)
  {
    forall i | 1 <= i < |assignments| && LacksId(assignments[i])
      ensures FreshAt(out, offset + i, used0)
    {
      assert assignments[i] == assignments[1..][i - 1];
      assert FreshAt(out, offset + 1 + (i - 1), used1);
    }
  }

  /**
   * Every generated id is new: it is not in `used_ids` when drawn, and it differs from the
   * id of every assignment before it, pre-existing or generated.
   */
  lemma {:induction false} RunFreshIds(
    assignments: seq<Entity>, st: State, draws: seq<int>, yarns: seq<Entity>, projects: seq<Entity>)
    requires DrawsInRange(draws) && Consistent(st)
    ensures var r := Run(assignments, st, draws, yarns, projects);
      r.Some? ==> (|r.value.out| == |st.out| + |assignments| && AllFresh(assignments, r.value.out, |st.out|, st.used))
    decreases |assignments|
  {
    RunExtends(assignments, st, draws, yarns, projects);
    if assignments != [] {
      var a := assignments[0];
      var next := Step(a, st, draws, yarns, projects);
      if next.Some? {
        var n := |st.out|;
        StepKeepsConsistent(a, st, draws, yarns, projects);
        StepFacts(a, st, draws, yarns, projects);
        RunFreshIds(assignments[1..], next.value, draws, yarns, projects);
        RunExtends(assignments[1..], next.value, draws, yarns, projects);
        var r := Run(assignments, st, draws, yarns, projects);
        if r.Some? {
          var out := r.value.out;
          assert out[..n + 1] == next.value.out;
          if LacksId(a) {
            FreshAtPrefix(out, next.value.out, n, st.used);
          }
          AllFreshCons(assignments, out, n, st.used, next.value.used);
        }
      }
    }
  }

  /** `new_id_count` counts exactly the assignments that had no `"id"` key. */
  lemma {:induction false} RunCountsNewIds(
    assignments: seq<Entity>, st: State, draws: seq<int>, yarns: seq<Entity>, projects: seq<Entity>)
    ensures var r := Run(assignments, st, draws, yarns, projects);
      r.Some? ==> r.value.newIds == st.newIds + Count(assignments, LacksId)
    decreases |assignments|
  {
    if assignments != [] {
      var next := Step(assignments[0], st, draws, yarns, projects);
      if next.Some? {
        RunCountsNewIds(assignments[1..], next.value, draws, yarns, projects);
        assert Count(assignments, LacksId)
          == (if LacksId(assignments[0]) then 1 else 0) + Count(assignments[1..], LacksId);
      }
    }
  }

  /**
   * Every assignment either adds a new id to `used_ids` or is recorded once as a
   * duplicate, never both.
   */
  lemma {:induction false} RunIdsOrDuplicates(
    assignments: seq<Entity>, st: State, draws: seq<int>, yarns: seq<Entity>, projects: seq<Entity>)
    ensures var r := Run(assignments, st, draws, yarns, projects);
      r.Some? ==> |r.value.used| + |r.value.duplicates| == |st.used| + |st.duplicates| + |assignments|
    ensures var r := Run(assignments, st, draws, yarns, projects);
      r.Some? ==> (st.used <= r.value.used && |st.duplicates| <= |r.value.duplicates|
        && r.value.duplicates[..|st.duplicates|] == st.duplicates)
    decreases |assignments|
  {
    if assignments != [] {
      var next := Step(assignments[0], st, draws, yarns, projects);
      if next.Some? {
        StepCounts(assignments[0], st, draws, yarns, projects);
        RunIdsOrDuplicates(assignments[1..], next.value, draws, yarns, projects);
        var r := Run(assignments, st, draws, yarns, projects);
        if r.Some? {
          var d, d1 := r.value.duplicates, next.value.duplicates;
          assert d[..|st.duplicates|] == d[..|d1|][..|st.duplicates|];
        }
      }
    }
  }

  /**
   * Starting from nothing, the duplicate list has one entry per extra occurrence of an id:
   * the number of assignments less the number of distinct ids they end up with.
   */
  lemma DuplicatesAreExtraOccurrences(assignments: seq<Entity>, draws: seq<int>, yarns: seq<Entity>, projects: seq<Entity>)
    requires DrawsInRange(draws)
    ensures var r := Run(assignments, Initial, draws, yarns, projects);
      r.Some? ==> |r.value.duplicates| == |assignments| - |IdsOf(r.value.out)|
  {
    RunUsedIds(assignments, Initial, draws, yarns, projects);
    RunIdsOrDuplicates(assignments, Initial, draws, yarns, projects);
    var r := Run(assignments, Initial, draws, yarns, projects);
    if r.Some? {
      assert r.value.out[0..] == r.value.out;
    }
  }

  /** The warnings only grow, and grow exactly when some assignment has a reference that does not match once. */
  lemma {:induction false} RunWarnings(
    assignments: seq<Entity>, st: State, draws: seq<int>, yarns: seq<Entity>, projects: seq<Entity>)
    ensures var r := Run(assignments, st, draws, yarns, projects);
      r.Some? ==> (|st.warnings| <= |r.value.warnings| && r.value.warnings[..|st.warnings|] == st.warnings)
    ensures var r := Run(assignments, st, draws, yarns, projects);
      r.Some? ==> (r.value.warnings == st.warnings
        <==> forall i :: 0 <= i < |assignments| ==> Linked(assignments[i], yarns, projects))
    decreases |assignments|
  {
    if assignments != [] {
      var a := assignments[0];
      var next := Step(a, st, draws, yarns, projects);
      if next.Some? {
        RunWarnings(assignments[1..], next.value, draws, yarns, projects);
        var r := Run(assignments, st, draws, yarns, projects);
        if r.Some? {
          var w, w1 := r.value.warnings, next.value.warnings;
          var b := next.value.out[|st.out|];
          assert Get(b, "projectId") == Get(a, "projectId") && Get(b, "yarnId") == Get(a, "yarnId");
          assert w1 == st.warnings + RefWarnings(b, yarns, projects);
          assert w[..|st.warnings|] == st.warnings by {
            assert w[..|st.warnings|] == w[..|w1|][..|st.warnings|];
          }
          if Linked(a, yarns, projects) {
            assert w1 == st.warnings;
            forall i | 0 <= i < |assignments| - 1 ensures assignments[1..][i] == assignments[i + 1] { }
          } else {
            assert |w1| > |st.warnings|;
            assert |w| >= |w1| by {
              assert w[..|w1|] == w1;
            }
          }
        }
      }
    }
  }

  /** A second run over migrated assignments changes none of them and generates no id. */
  lemma {:induction false} RerunIsIdentity(
    assignments: seq<Entity>, st: State, draws: seq<int>, yarns: seq<Entity>, projects: seq<Entity>)
    requires forall i :: 0 <= i < |assignments| ==> "id" in assignments[i]
    ensures var r := Run(assignments, st, draws, yarns, projects);
      r.Some? && r.value.out == st.out + assignments && r.value.newIds == st.newIds && r.value.cursor == st.cursor
    decreases |assignments|
  {
    if assignments == [] {
      assert st.out + assignments == st.out;
    } else {
      var next := Step(assignments[0], st, draws, yarns, projects);
      assert forall i :: 0 <= i < |assignments[1..]| ==> "id" in assignments[1..][i] by {
        forall i | 0 <= i < |assignments[1..]| ensures assignments[1..][i] == assignments[i + 1] { }
      }
      RerunIsIdentity(assignments[1..], next.value, draws, yarns, projects);
      assert st.out + assignments == st.out + [assignments[0]] + assignments[1..];
    }
  }

  /** An id seen twice is reported once, on its second occurrence. */
  lemma RepeatedIdReported()
    ensures var run := Run([map["id" := Int(5)], map["id" := Int(5)], map["id" := Int(7)]], Initial, [], [], []);
      run.Some? && run.value.duplicates == [Int(5)]
  {
    var s: seq<Entity> := [map["id" := Int(5)], map["id" := Int(5)], map["id" := Int(7)]];
    assert s[1..] == [map["id" := Int(5)], map["id" := Int(7)]];
    assert s[1..][1..] == [map["id" := Int(7)]];
    assert s[1..][1..][1..] == [];
  }

  /** Python's `True == 1`: an id `true` after an id `1` is a duplicate. */
  lemma TrueRepeatsOne()
    ensures var run := Run([map["id" := Int(1)], map["id" := Bool(true)]], Initial, [], [], []);
      run.Some? && run.value.duplicates == [Bool(true)]
  {
    var s: seq<Entity> := [map["id" := Int(1)], map["id" := Bool(true)]];
    assert s[1..] == [map["id" := Bool(true)]];
    assert s[1..][1..] == [];
  }

  /**
   * The loop of `process` over the assignment list: for each assignment, draw until the id
   * is unused (or take its own), then check its two references.
   */
  method ProcessAssignments(assignments: seq<Entity>, draws: seq<int>, yarns: seq<Entity>, projects: seq<Entity>)
    returns (r: Option<State>)
    ensures r == Run(assignments, Initial, draws, yarns, projects)
  {
    var out: seq<Entity> := [];
    var used: set<Value> := {};
    var newIdCount: nat := 0;
    var duplicateIds: seq<Value> := [];
    var warnings: seq<Warning> := [];
    var cursor: nat := 0;
    var i := 0;
    while i < |assignments|
      invariant 0 <= i <= |assignments|
      invariant Run(assignments[i..], State(out, used, newIdCount, duplicateIds, warnings, cursor), draws, yarns, projects)
        == Run(assignments, Initial, draws, yarns, projects)
    {
      ghost var st := State(out, used, newIdCount, duplicateIds, warnings, cursor);
      var a := assignments[i];
      ghost var next := Step(a, st, draws, yarns, projects);
      assert Run(assignments[i..], st, draws, yarns, projects)
        == if next.None? then None else Run(assignments[i + 1..], next.value, draws, yarns, projects) by {
        assert assignments[i..][0] == a;
        assert assignments[i..][1..] == assignments[i + 1..];
      }
      if "id" !in a {
        var k := cursor;
        while k < |draws| && Int(draws[k]) in used
          invariant cursor <= k
          invariant FirstUnused(used, draws, k) == FirstUnused(used, draws, cursor)
          decreases |draws| - k
        {
          k := k + 1;
        }
        if k >= |draws| {
          assert next.None?;
          return None;
        }
        assert FirstUnused(used, draws, cursor) == Some(k);
        var newId := draws[k];
        a := a["id" := Int(newId)];
        used := used + {Int(newId)};
        newIdCount := newIdCount + 1;
        cursor := k + 1;
        warnings := warnings + RefWarnings(a, yarns, projects);
        out := out + [a];
        assert next.Some?;
        assert next.value.out == out;
        assert next.value.used == used;
        assert next.value.warnings == warnings;
        assert next.value.cursor == cursor;
        assert next.value.newIds == newIdCount;
        assert next.value.duplicates == duplicateIds;
        assert next == Some(State(out, used, newIdCount, duplicateIds, warnings, cursor));
      } else {
        var currentId := a["id"];
        if Canon(currentId) in used {
          duplicateIds := duplicateIds + [currentId];
        }
        used := used + {Canon(currentId)};
        warnings := warnings + RefWarnings(a, yarns, projects);
        out := out + [a];
        assert next == Some(State(out, used, newIdCount, duplicateIds, warnings, cursor));
      }
      i := i + 1;
    }
    assert assignments[i..] == [];
    r := Some(State(out, used, newIdCount, duplicateIds, warnings, cursor));
  }

  // ---------------------------------------------------------------------------
  // The document
  // ---------------------------------------------------------------------------

  /** The top-level lists of the decoded document; `None` for a key the document lacks. */
  class Document {
    var yarns: Option<seq<Entity>>
    var projects: Option<seq<Entity>>
    var assignments: Option<seq<Entity>>
    var usages: Option<seq<Entity>>

    constructor (yarns: Option<seq<Entity>>, projects: Option<seq<Entity>>,
                 assignments: Option<seq<Entity>>, usages: Option<seq<Entity>>)
      ensures this.yarns == yarns && this.projects == projects
      ensures this.assignments == assignments && this.usages == usages
    {
      this.yarns := yarns;
      this.projects := projects;
      this.assignments := assignments;
      this.usages := usages;
    }
  }

  /** The summary `process` prints after the loop. */
  datatype Report = Report(renamed: bool, newIdCount: nat, duplicates: seq<Value>, warnings: seq<Warning>)

  /** How a run ends: an abort for a missing list, the draws running out, or the migrated document. */
  datatype Outcome = MissingYarns | MissingProjects | MissingAssignments | DrawsExhausted | Done(report: Report)

  /**
   * `process` on a decoded document: the checks for `yarns`, `projects` and then
   * `assignments` (or `usages`, which is moved to `assignments`) abort before any change;
   * otherwise the assignment list is replaced by its migrated form.
   */
  method Process(doc: Document, draws: seq<int>) returns (outcome: Outcome)
    modifies doc
    ensures old(doc.yarns).None? ==> outcome == MissingYarns && unchanged(doc)
    ensures old(doc.yarns).Some? && old(doc.projects).None? ==> outcome == MissingProjects && unchanged(doc)
    ensures (old(doc.yarns).Some? && old(doc.projects).Some? && old(doc.assignments).None? && old(doc.usages).None?)
      ==> outcome == MissingAssignments && unchanged(doc)
    ensures (old(doc.yarns).Some? && old(doc.projects).Some? && (old(doc.assignments).Some? || old(doc.usages).Some?))
      ==> (var renamed := old(doc.assignments).None?;
        var source := if renamed then old(doc.usages).value else old(doc.assignments).value;
        var r := Run(source, Initial, draws, old(doc.yarns).value, old(doc.projects).value);
        && doc.yarns == old(doc.yarns) && doc.projects == old(doc.projects)
        && doc.usages == (if renamed then None else old(doc.usages))
        && (r.None? ==> outcome == DrawsExhausted && doc.assignments == Some(source))
        && (r.Some? ==> outcome == Done(Report(renamed, r.value.newIds, r.value.duplicates, r.value.warnings)))
        && (r.Some? ==> doc.assignments == Some(r.value.out)))
  {
    if doc.yarns.None? {
      return MissingYarns;
    }
    if doc.projects.None? {
      return MissingProjects;
    }
    var renamed := false;
    if doc.assignments.None? {
      if doc.usages.None? {
        return MissingAssignments;
      }
      doc.assignments := doc.usages;
      doc.usages := None;
      renamed := true;
    }
    var r := ProcessAssignments(doc.assignments.value, draws, doc.yarns.value, doc.projects.value);
    if r.None? {
      return DrawsExhausted;
    }
    doc.assignments := Some(r.value.out);
    outcome := Done(Report(renamed, r.value.newIds, r.value.duplicates, r.value.warnings));
  }
}
