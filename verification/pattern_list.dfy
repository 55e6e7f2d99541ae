/** The pattern list screen: the text filter over name, creator and category, and the order by name. */
module PatternList {
  import opened Wrappers
  import opened Text
  import opened Sorting
  import opened Lists

  /** The fields of a pattern this screen reads. */
  datatype PatternRow = PatternRow(id: int, name: string, creator: Option<string>, category: Option<string>)

  /** `x?.contains(filter, ignoreCase = true) == true`: a null field never matches. */
  predicate OptionalContains(field: Option<string>, filter: string) {
    field.Some? && ContainsIgnoreCase(field.value, filter)
  }

  /** A blank filter keeps every pattern; otherwise name, creator or category must contain it. */
  predicate Matches(p: PatternRow, filter: string) {
    IsBlank(filter)
    || ContainsIgnoreCase(p.name, filter)
    || OptionalContains(p.creator, filter)
    || OptionalContains(p.category, filter)
  }

  /** `sortedBy { it.name }`. */
  function ByName(): (PatternRow, PatternRow) -> bool {
    (a: PatternRow, b: PatternRow) => StrLe(a.name, b.name)
  }

  lemma ByNameIsPreorder()
    ensures TotalPreorder(ByName())
  {
    var le := ByName();
    forall a, b ensures le(a, b) || le(b, a) {
      StrLeTotal(a.name, b.name);
    }
    forall a, b, c | le(a, b) && le(b, c) ensures le(a, c) {
      StrLeTrans(a.name, b.name, c.name);
    }
  }

  function ShownPatterns(patterns: seq<PatternRow>, filter: string): seq<PatternRow> {
    StableSort(Filter(patterns, p => Matches(p, filter)), ByName())
  }

  /**
   * The list holds each matching pattern as often as it occurs and nothing else, so it
   * is a sub-multiset of the patterns; it is ordered by name, and patterns with the
   * same name keep their input order.
   */
  lemma ShownPatternsCorrect(patterns: seq<PatternRow>, filter: string)
    ensures var r := ShownPatterns(patterns, filter);
      && multiset(r) == multiset(Filter(patterns, p => Matches(p, filter)))
      && multiset(r) <= multiset(patterns)
      && (forall i :: 0 <= i < |r| ==> Matches(r[i], filter))
      && (forall i, j :: 0 <= i < j < |r| ==> StrLe(r[i].name, r[j].name))
      && forall e :: EquivRun(r, e, ByName())
                  == EquivRun(Filter(patterns, p => Matches(p, filter)), e, ByName())
  {
    var f := Filter(patterns, p => Matches(p, filter));
    ByNameIsPreorder();
    StableSortCorrect(f, ByName());
    FilterSubMultiset(patterns, p => Matches(p, filter));
    var r := StableSort(f, ByName());
    forall i | 0 <= i < |r| ensures Matches(r[i], filter) {
      assert r[i] in multiset(f);
      var k :| 0 <= k < |f| && f[k] == r[i];
    }
  }

  /** A blank filter shows every pattern. */
  lemma BlankFilterKeepsAll(patterns: seq<PatternRow>, filter: string)
    requires IsBlank(filter)
    ensures multiset(ShownPatterns(patterns, filter)) == multiset(patterns)
  {
    FilterAll(patterns, p => Matches(p, filter));
    ShownPatternsCorrect(patterns, filter);
  }

  /** A pattern without creator and category is found by its name only. */
  lemma NullFieldsNeverMatch(p: PatternRow, filter: string)
    requires p.creator.None? && p.category.None? && !IsBlank(filter)
    ensures Matches(p, filter) <==> ContainsIgnoreCase(p.name, filter)
  {
  }
}
