/**
 * The statistics screen: the years found in the data, the chart categories, which
 * projects count as active in a category, and the integer gram and metre totals.
 */
module Statistics {
  import opened Wrappers
  import opened Text
  import opened Lists
  import opened ProjectStatus

  /** The fields of a yarn this screen reads. */
  datatype YarnStat = YarnStat(
    id: int, amount: int, added: Option<string>,
    meteragePerSkein: Option<int>, weightPerSkein: Option<int>)

  datatype ProjectStat = ProjectStat(id: int, startDate: Option<string>, endDate: Option<string>)

  datatype UsageStat = UsageStat(projectId: int, yarnId: int, amount: int)

  // ---------------------------------------------------------------------------
  // Years
  // ---------------------------------------------------------------------------

  /** `date?.take(4)?.toIntOrNull()`. */
  function YearOf(date: Option<string>): Option<int> {
    if date.None? then None else ParseInt(Take(date.value, 4))
  }

  /** The years of the yarns' purchase dates, then those of the projects' start and end dates. */
  function RawYears(yarns: seq<YarnStat>, projects: seq<ProjectStat>): seq<int> {
    YarnYears(yarns) + ProjectYears(projects)
  }

  function YarnYears(yarns: seq<YarnStat>): seq<int> {
    if yarns == [] then []
    else
      var y := YearOf(yarns[0].added);
      (if y.Some? then [y.value] else []) + YarnYears(yarns[1..])
  }

  function ProjectYears(projects: seq<ProjectStat>): seq<int> {
    if projects == [] then []
    else
      var s := YearOf(projects[0].startDate);
      var e := YearOf(projects[0].endDate);
      (if s.Some? then [s.value] else []) + (if e.Some? then [e.value] else [])
      + ProjectYears(projects[1..])
  }

  predicate Increasing(s: seq<int>) {
    forall i, j :: 0 <= i < j < |s| ==> s[i] < s[j]
  }

  /** Adds `x` to an increasing list unless it is already there. */
  function InsertDistinct(x: int, s: seq<int>): (r: seq<int>)
    requires Increasing(s)
    ensures Increasing(r)
    ensures forall y :: y in r <==> y == x || y in s
  {
    if s == [] then [x]
    else if x == s[0] then s
    else if x < s[0] then [x] + s
    else
      var rest := InsertDistinct(x, s[1..]);
      assert forall i :: 0 <= i < |rest| ==> s[0] < rest[i] by {
        forall i | 0 <= i < |rest| ensures s[0] < rest[i] {
          assert rest[i] in rest;
          if rest[i] != x {
            var k :| 0 <= k < |s[1..]| && s[1..][k] == rest[i];
            assert s[k + 1] == rest[i];
          }
        }
      }
      [s[0]] + rest
  }

  /** `distinct().sorted()`: the same years, each once, in ascending order. */
  function DistinctSorted(raw: seq<int>): (r: seq<int>)
    ensures Increasing(r)
    ensures forall y :: y in r <==> y in raw
  {
    if raw == [] then [] else InsertDistinct(raw[0], DistinctSorted(raw[1..]))
  }

  function DetectedYears(yarns: seq<YarnStat>, projects: seq<ProjectStat>): (r: seq<int>)
    ensures Increasing(r)
    ensures forall y :: y in r <==> y in RawYears(yarns, projects)
  {
    DistinctSorted(RawYears(yarns, projects))
  }

  /** A yarn whose purchase date starts with a parsable year contributes that year. */
  lemma {:induction false} YarnYearDetected(yarns: seq<YarnStat>, projects: seq<ProjectStat>, i: nat)
    requires i < |yarns| && YearOf(yarns[i].added).Some?
    ensures YearOf(yarns[i].added).value in DetectedYears(yarns, projects)
  {
    YarnYearListed(yarns, i);
  }

  lemma {:induction false} YarnYearListed(yarns: seq<YarnStat>, i: nat)
    requires i < |yarns| && YearOf(yarns[i].added).Some?
    ensures YearOf(yarns[i].added).value in YarnYears(yarns)
  {
    if i > 0 {
      YarnYearListed(yarns[1..], i - 1);
    }
  }

  /** `asReversed().map { it.toString() }`: the years as text, the latest first. */
  function YearsDescending(years: seq<int>): (r: seq<string>)
    ensures |r| == |years|
    ensures forall i :: 0 <= i < |r| ==> r[i] == FormatInt(years[|years| - 1 - i])
  {
    MapReversed(years, FormatInt)
  }

  /** "overall" followed by the years as text, the latest first. */
  function DropdownOptions(overall: string, years: seq<int>): (r: seq<string>)
    ensures |r| == |years| + 1 && r[0] == overall && r[1..] == YearsDescending(years)
  {
    [overall] + YearsDescending(years)
  }

  /** Selecting a year option gives back that year. */
  lemma DropdownYearParses(overall: string, years: seq<int>, i: nat)
    requires i < |years| && IsInt32(years[|years| - 1 - i])
    ensures ParseInt(DropdownOptions(overall, years)[i + 1]) == Some(years[|years| - 1 - i])
  {
    var r := DropdownOptions(overall, years);
    assert r[i + 1] == r[1..][i];
    FormatParse(years[|years| - 1 - i]);
  }

  // ---------------------------------------------------------------------------
  // Categories
  // ---------------------------------------------------------------------------

  /** `"$year-" + m.toString().padStart(2, '0')`. */
  function MonthCategory(year: int, m: int): string {
    FormatInt(year) + "-" + PadZeros(FormatInt(m), 2)
  }

  /**
   * Overall: every year from the first to the last detected one, as text, or none.
   * A selected year: its twelve months; a selection that is not a number: none.
   */
  function Categories(isOverall: bool, years: seq<int>, selectedFilter: string): (r: seq<string>)
    requires Increasing(years)
    ensures isOverall && years == [] ==> r == []
    ensures isOverall && years != [] ==>
      |r| == years[|years| - 1] - years[0] + 1 &&
      forall i :: 0 <= i < |r| ==> r[i] == FormatInt(years[0] + i)
    ensures !isOverall && ParseInt(selectedFilter).None? ==> r == []
    ensures !isOverall && ParseInt(selectedFilter).Some? ==>
      |r| == 12 && forall m :: 1 <= m <= 12 ==> r[m - 1] == MonthCategory(ParseInt(selectedFilter).value, m)
  {
    if isOverall then
      if years == [] then []
      else
        var lo, hi := years[0], years[|years| - 1];
        assert lo <= hi by {
          if |years| > 1 { assert years[0] < years[|years| - 1]; }
        }
        seq(hi - lo + 1, i => FormatInt(lo + i))
    else
      match ParseInt(selectedFilter)
      case None => []
      case Some(year) => seq(12, i => MonthCategory(year, i + 1))
  }

  /** Every detected year has its category in the overall view. */
  lemma OverallCoversYears(years: seq<int>, k: nat)
    requires Increasing(years) && k < |years|
    ensures FormatInt(years[k]) in Categories(true, years, "")
  {
    var r := Categories(true, years, "");
    if k > 0 {
      assert years[0] < years[k];
    }
    if k < |years| - 1 {
      assert years[k] < years[|years| - 1];
    }
    assert r[years[k] - years[0]] == FormatInt(years[k]);
  }

  /** The two-digit month part "01" … "12". */
  lemma MonthDigits(m: int)
    requires 1 <= m <= 12
    ensures PadZeros(FormatInt(m), 2) == [('0' as int + m / 10) as char, ('0' as int + m % 10) as char]
  {
    if m >= 10 {
      assert NatToString(m) == NatToString(m / 10) + [('0' as int + m % 10) as char];
    }
  }

  lemma {:induction false} StrLeCommonPrefix(p: string, a: string, b: string)
    requires StrLe(a, b)
    ensures StrLe(p + a, p + b)
  {
    if p != [] {
      assert (p + a)[1..] == p[1..] + a;
      assert (p + b)[1..] == p[1..] + b;
      StrLeCommonPrefix(p[1..], a, b);
    } else {
      assert p + a == a && p + b == b;
    }
  }

  /** The month categories of a year are in ascending string order, as the keys they are compared with. */
  lemma MonthCategoriesAscending(year: int, m: int, n: int)
    requires 1 <= m < n <= 12
    ensures StrLe(MonthCategory(year, m), MonthCategory(year, n))
    ensures MonthCategory(year, m) != MonthCategory(year, n)
  {
    MonthDigits(m);
    MonthDigits(n);
    var p := FormatInt(year) + "-";
    var a, b := PadZeros(FormatInt(m), 2), PadZeros(FormatInt(n), 2);
    assert StrLe(a, b) by {
      if m / 10 == n / 10 {
        assert a[0] == b[0] && a[1..] == [a[1]] && b[1..] == [b[1]];
        assert a[1] < b[1];
      }
    }
    StrLeCommonPrefix(p, a, b);
    assert MonthCategory(year, m) == p + a && MonthCategory(year, n) == p + b;
    assert (p + a)[|p| + 1] != (p + b)[|p| + 1] || (p + a)[|p|] != (p + b)[|p|];
  }

  // ---------------------------------------------------------------------------
  // Active projects
  // ---------------------------------------------------------------------------

  /** `take(4)` in the overall view, `take(7)` in a year's view. */
  function KeyOf(isOverall: bool, date: Option<string>): Option<string> {
    if date.None? then None else Some(Take(date.value, if isOverall then 4 else 7))
  }

  /**
   * A project counts as in progress in a category when its start key is at most the
   * category, and it is in progress, or finished with an end key after the category.
   */
  predicate ActiveInCategory(isOverall: bool, p: ProjectStat, category: string) {
    var start := KeyOf(isOverall, p.startDate);
    var end := KeyOf(isOverall, p.endDate);
    var started := start.Some? && StrLe(start.value, category);
    var notFinishedYet :=
      match StatusOf(p.startDate, p.endDate)
      case InProgress => true
      case Finished => end.Some? && !StrLe(end.value, category)
      case Planning => false;
    started && notFinishedYet
  }

  /** A project being planned is never active, and an active project has a start date. */
  lemma ActiveNeedsStart(isOverall: bool, p: ProjectStat, category: string)
    requires ActiveInCategory(isOverall, p, category)
    ensures StatusOf(p.startDate, p.endDate) != Planning
    ensures p.startDate.Some?
  {
  }

  /** A project in progress stays active in every later category. */
  lemma InProgressStaysActive(isOverall: bool, p: ProjectStat, c: string, later: string)
    requires ActiveInCategory(isOverall, p, c) && StrLe(c, later)
    requires StatusOf(p.startDate, p.endDate) == InProgress
    ensures ActiveInCategory(isOverall, p, later)
  {
    StrLeTrans(KeyOf(isOverall, p.startDate).value, c, later);
  }

  /** A finished project is no longer active from the category of its end key on. */
  lemma FinishedStopsAtEnd(isOverall: bool, p: ProjectStat, c: string)
    requires StatusOf(p.startDate, p.endDate) == Finished
    requires KeyOf(isOverall, p.endDate).Some? && StrLe(KeyOf(isOverall, p.endDate).value, c)
    ensures !ActiveInCategory(isOverall, p, c)
  {
  }

  /** `projects.count { projectActiveInCategory(it, cat) }`: zero exactly when no project is active. */
  function InProgressCount(projects: seq<ProjectStat>, isOverall: bool, category: string): (n: nat)
    ensures n <= |projects|
    ensures n == 0 <==> forall i :: 0 <= i < |projects| ==> !ActiveInCategory(isOverall, projects[i], category)
  {
    var active := Filter(projects, p => ActiveInCategory(isOverall, p, category));
    assert active != [] ==> active[0] in projects;
    Count(projects, p => ActiveInCategory(isOverall, p, category))
  }

  // ---------------------------------------------------------------------------
  // Gram and metre totals
  // ---------------------------------------------------------------------------

  function SumAmounts(usages: seq<UsageStat>): int {
    if usages == [] then 0 else usages[0].amount + SumAmounts(usages[1..])
  }

  /** `usages.filter { it.yarnId == id }.sumOf { it.amount }`. */
  function UsedOfYarn(usages: seq<UsageStat>, yarnId: int): int {
    SumAmounts(Filter(usages, (u: UsageStat) => u.yarnId == yarnId))
  }

  /** `(amount - used).coerceAtLeast(0)`. */
  function Available(y: YarnStat, usages: seq<UsageStat>): (r: int)
    ensures r >= 0 && r >= y.amount - UsedOfYarn(usages, y.id)
    ensures r == 0 || r == y.amount - UsedOfYarn(usages, y.id)
  {
    var d := y.amount - UsedOfYarn(usages, y.id);
    if d < 0 then 0 else d
  }

  function TotalAvailableWeight(yarns: seq<YarnStat>, usages: seq<UsageStat>): (r: int)
    ensures r >= 0
    ensures forall i :: 0 <= i < |yarns| ==> r >= Available(yarns[i], usages)
  {
    if yarns == [] then 0
    else Available(yarns[0], usages) + TotalAvailableWeight(yarns[1..], usages)
  }

  /** Kotlin's `Int` division, which truncates toward zero. */
  function KotlinDiv(n: int, d: int): (q: int)
    requires d > 0
    ensures n >= 0 ==> q == n / d
    ensures n < 0 ==> q == -((-n) / d)
  {
    if n >= 0 then n / d else -((-n) / d)
  }

  /** Truncating division rounds toward zero: the quotient never overshoots in magnitude. */
  lemma KotlinDivBounds(n: int, d: int)
    requires d > 0
    ensures n >= 0 ==> 0 <= KotlinDiv(n, d) * d <= n < (KotlinDiv(n, d) + 1) * d
    ensures n < 0 ==> n <= KotlinDiv(n, d) * d <= 0
    ensures KotlinDiv(-n, d) == -KotlinDiv(n, d)
  {
    if n >= 0 {
      DivBounds(n, d);
    } else {
      DivBounds(-n, d);
      assert KotlinDiv(n, d) * d == -(((-n) / d) * d);
    }
  }

  /** A negative number times a positive one is at most minus the positive one. */
  lemma MulNegative(q: int, d: int)
    requires q < 0 && d > 0
    ensures q * d <= -d
    decreases -q
  {
    assert q * d == -d + (q + 1) * d;
    if q < -1 {
      MulNegative(q + 1, d);
    }
  }

  /** Euclidean division of a non-negative number by a positive one. */
  lemma DivBounds(m: int, d: int)
    requires m >= 0 && d > 0
    ensures 0 <= (m / d) * d <= m < (m / d + 1) * d
  {
    var q, r := m / d, m % d;
    assert m == q * d + r && 0 <= r < d;
    assert q >= 0 by {
      if q < 0 {
        MulNegative(q, d);
      }
    }
    assert (q + 1) * d == q * d + d;
  }

  /** Metres in `grams` of a yarn: known metreage and a positive skein weight, else 0. */
  function MeterageTerm(grams: int, meterage: Option<int>, weight: Option<int>): (r: int)
    ensures meterage.None? || weight.None? || weight.value <= 0 ==> r == 0
    ensures meterage.Some? && weight.Some? && weight.value > 0 && grams >= 0 && meterage.value >= 0 ==>
      0 <= r * weight.value <= grams * meterage.value < (r + 1) * weight.value
  {
    if meterage.Some? && weight.Some? && weight.value > 0 then
      KotlinDivBounds(grams * meterage.value, weight.value);
      KotlinDiv(grams * meterage.value, weight.value)
    else 0
  }

  function TotalAvailableMeterage(yarns: seq<YarnStat>, usages: seq<UsageStat>): (r: int)
    ensures (forall i :: 0 <= i < |yarns| ==>
               yarns[i].meteragePerSkein.None? || yarns[i].meteragePerSkein.value >= 0) ==> r >= 0
  {
    if yarns == [] then 0
    else
      var y := yarns[0];
      MeterageTerm(Available(y, usages), y.meteragePerSkein, y.weightPerSkein)
      + TotalAvailableMeterage(yarns[1..], usages)
  }

  /** Grams of the yarns bought in a category: the yarns whose purchase key is the category. */
  function BoughtAmount(yarns: seq<YarnStat>, isOverall: bool, category: string): int {
    if yarns == [] then 0
    else (if KeyOf(isOverall, yarns[0].added) == Some(category) then yarns[0].amount else 0)
         + BoughtAmount(yarns[1..], isOverall, category)
  }

  /** No yarn has a negative length per skein. */
  predicate MeteragesNonNegative(yarns: seq<YarnStat>) {
    forall i :: 0 <= i < |yarns| ==> yarns[i].meteragePerSkein.None? || yarns[i].meteragePerSkein.value >= 0
  }

  /** Metres of the yarns bought in a category; never negative for non-negative stock. */
  function BoughtMeterage(yarns: seq<YarnStat>, isOverall: bool, category: string): (r: int)
    ensures MeteragesNonNegative(yarns) && (forall i :: 0 <= i < |yarns| ==> yarns[i].amount >= 0) ==> r >= 0
  {
    if yarns == [] then 0
    else
      var y := yarns[0];
      (if KeyOf(isOverall, y.added) == Some(category)
       then MeterageTerm(y.amount, y.meteragePerSkein, y.weightPerSkein) else 0)
      + BoughtMeterage(yarns[1..], isOverall, category)
  }

  /** Metres of one usage: through the first yarn with its id, 0 when that yarn is gone. */
  function UsageMeterage(yarns: seq<YarnStat>, u: UsageStat): (r: int)
    ensures (forall i :: 0 <= i < |yarns| ==> yarns[i].id != u.yarnId) ==> r == 0
    ensures MeteragesNonNegative(yarns) && u.amount >= 0 ==> r >= 0
  {
    match Find(yarns, (y: YarnStat) => y.id == u.yarnId)
    case None => 0
    case Some(y) => MeterageTerm(u.amount, y.meteragePerSkein, y.weightPerSkein)
  }

  function ProjectUsed(usages: seq<UsageStat>, projectId: int): int {
    SumAmounts(Filter(usages, (u: UsageStat) => u.projectId == projectId))
  }

  function ProjectUsedMeterage(usages: seq<UsageStat>, yarns: seq<YarnStat>, projectId: int): (r: int)
    ensures MeteragesNonNegative(yarns) && (forall i :: 0 <= i < |usages| ==> usages[i].amount >= 0) ==> r >= 0
  {
    var mine := Filter(usages, (u: UsageStat) => u.projectId == projectId);
    SumMeterage(mine, yarns)
  }

  function SumMeterage(usages: seq<UsageStat>, yarns: seq<YarnStat>): (r: int)
    ensures MeteragesNonNegative(yarns) && (forall i :: 0 <= i < |usages| ==> usages[i].amount >= 0) ==> r >= 0
  {
    if usages == [] then 0 else UsageMeterage(yarns, usages[0]) + SumMeterage(usages[1..], yarns)
  }

  /** A finished project belongs to the category of its end key. */
  predicate FinishedIn(p: ProjectStat, isOverall: bool, category: string) {
    StatusOf(p.startDate, p.endDate) == Finished && KeyOf(isOverall, p.endDate) == Some(category)
  }

  /** Grams used by the projects finished in a category. */
  function UsedAmount(projects: seq<ProjectStat>, usages: seq<UsageStat>, isOverall: bool, category: string): int {
    if projects == [] then 0
    else (if FinishedIn(projects[0], isOverall, category) then ProjectUsed(usages, projects[0].id) else 0)
         + UsedAmount(projects[1..], usages, isOverall, category)
  }

  /** Metres used by the projects finished in a category; never negative for non-negative usages. */
  function UsedMeterage(projects: seq<ProjectStat>, usages: seq<UsageStat>, yarns: seq<YarnStat>,
                        isOverall: bool, category: string): (r: int)
    ensures MeteragesNonNegative(yarns) && (forall i :: 0 <= i < |usages| ==> usages[i].amount >= 0) ==> r >= 0
  {
    if projects == [] then 0
    else (if FinishedIn(projects[0], isOverall, category)
          then ProjectUsedMeterage(usages, yarns, projects[0].id) else 0)
         + UsedMeterage(projects[1..], usages, yarns, isOverall, category)
  }

  /** `finishedByYear[cat]?.size ?: 0`: zero exactly when no project finished in the category. */
  function FinishedCount(projects: seq<ProjectStat>, isOverall: bool, category: string): (n: nat)
    ensures n <= |projects|
    ensures n == 0 <==> forall i :: 0 <= i < |projects| ==> !FinishedIn(projects[i], isOverall, category)
  {
    var finished := Filter(projects, p => FinishedIn(p, isOverall, category));
    assert finished != [] ==> finished[0] in projects;
    Count(projects, p => FinishedIn(p, isOverall, category))
  }

  /** A project finished in a category is not counted as in progress there. */
  lemma FinishedNotInProgress(p: ProjectStat, isOverall: bool, category: string)
    requires FinishedIn(p, isOverall, category)
    ensures !ActiveInCategory(isOverall, p, category)
  {
    StrLeTotal(category, category);
  }

  /** The two bars of the projects chart never count a project twice. */
  lemma FinishedAndInProgressWithinProjects(projects: seq<ProjectStat>, isOverall: bool, category: string)
    ensures FinishedCount(projects, isOverall, category) + InProgressCount(projects, isOverall, category)
      <= |projects|
  {
    var finished := p => FinishedIn(p, isOverall, category);
    var active := p => ActiveInCategory(isOverall, p, category);
    forall x | finished(x) ensures !active(x) {
      FinishedNotInProgress(x, isOverall, category);
    }
    CountDisjoint(projects, finished, active);
  }

  /** The gram totals of a category add up over a split list. */
  lemma {:induction false} BoughtAmountConcat(a: seq<YarnStat>, b: seq<YarnStat>, isOverall: bool, category: string)
    ensures BoughtAmount(a + b, isOverall, category) == BoughtAmount(a, isOverall, category) + BoughtAmount(b, isOverall, category)
  {
    if a == [] {
      assert a + b == b;
    } else {
      assert (a + b)[0] == a[0] && (a + b)[1..] == a[1..] + b;
      BoughtAmountConcat(a[1..], b, isOverall, category);
    }
  }

  lemma {:induction false} UsedAmountConcat(
    a: seq<ProjectStat>, b: seq<ProjectStat>, usages: seq<UsageStat>, isOverall: bool, category: string)
    ensures UsedAmount(a + b, usages, isOverall, category)
      == UsedAmount(a, usages, isOverall, category) + UsedAmount(b, usages, isOverall, category)
  {
    if a == [] {
      assert a + b == b;
    } else {
      assert (a + b)[0] == a[0] && (a + b)[1..] == a[1..] + b;
      UsedAmountConcat(a[1..], b, usages, isOverall, category);
    }
  }

  /** A yarn without a purchase date is bought in no category. */
  lemma UndatedYarnBoughtNowhere(y: YarnStat, isOverall: bool, category: string)
    requires y.added.None?
    ensures BoughtAmount([y], isOverall, category) == 0
    ensures BoughtMeterage([y], isOverall, category) == 0
  {
  }

  /** Only finished projects count as used, and only in the category of their end date. */
  lemma UsedOnlyWhenFinishedThere(
    p: ProjectStat, usages: seq<UsageStat>, yarns: seq<YarnStat>, isOverall: bool, category: string)
    requires !FinishedIn(p, isOverall, category)
    ensures UsedAmount([p], usages, isOverall, category) == 0
    ensures UsedMeterage([p], usages, yarns, isOverall, category) == 0
  {
  }

  // ---------------------------------------------------------------------------
  // Charts
  // ---------------------------------------------------------------------------

  predicate AllZero(values: seq<int>) {
    forall i :: 0 <= i < |values| ==> values[i] == 0
  }

  /**
   * The bars of a chart: the categories, in order, with some non-zero value. The chart
   * is drawn only when this is not empty.
   */
  function ChartBars(categories: seq<string>, values: string -> seq<int>): (r: seq<string>)
    ensures forall i :: 0 <= i < |r| ==> !AllZero(values(r[i])) && r[i] in categories
    ensures forall i :: 0 <= i < |categories| && !AllZero(values(categories[i])) ==> categories[i] in r
    ensures |r| <= |categories|
    ensures multiset(r) <= multiset(categories)
  {
    FilterSubMultiset(categories, c => !AllZero(values(c)));
    Filter(categories, c => !AllZero(values(c)))
  }

  /** Bars keep the order of the categories: those of earlier categories come first. */
  lemma ChartBarsConcat(a: seq<string>, b: seq<string>, values: string -> seq<int>)
    ensures ChartBars(a + b, values) == ChartBars(a, values) + ChartBars(b, values)
  {
    FilterConcat(a, b, c => !AllZero(values(c)));
  }

  /** A chart whose values are all zero draws nothing. */
  lemma AllZeroChartEmpty(categories: seq<string>, values: string -> seq<int>)
    requires forall i :: 0 <= i < |categories| ==> AllZero(values(categories[i]))
    ensures ChartBars(categories, values) == []
  {
    FilterNone(categories, c => !AllZero(values(c)));
  }
}
