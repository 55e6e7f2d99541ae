/**
 * The date picker: a `YYYY-MM-DD` text split into year, month and day selections,
 * the day reset when the month is shorter, and the text emitted back to its owner.
 */
module DateInput {
  import opened Wrappers
  import opened Text

  /** The three selections; each may be unset. */
  datatype Parts = Parts(year: Option<int>, month: Option<int>, day: Option<int>)

  const NoParts := Parts(None, None, None)

  /**
   * `date?.split("-")`: exactly three parts give a per-part `toIntOrNull`; any other
   * shape, or no date, gives three unset parts.
   */
  function ParseDate(date: Option<string>): (r: Parts)
    ensures date.None? ==> r == NoParts
    ensures date.Some? && |Split(date.value, '-')| != 3 ==> r == NoParts
    ensures date.Some? && |Split(date.value, '-')| == 3 ==>
      var parts := Split(date.value, '-');
      r == Parts(ParseInt(parts[0]), ParseInt(parts[1]), ParseInt(parts[2]))
  {
    match date
    case None => NoParts
    case Some(text) =>
      var parts := Split(text, '-');
      if |parts| == 3 then Parts(ParseInt(parts[0]), ParseInt(parts[1]), ParseInt(parts[2]))
      else NoParts
  }

  /** `"$y-" + m.padStart(2, '0') + "-" + d.padStart(2, '0')`: the year is not padded. */
  function FormatDate(y: int, m: int, d: int): string {
    FormatInt(y) + "-" + PadZeros(FormatInt(m), 2) + "-" + PadZeros(FormatInt(d), 2)
  }

  /** A non-negative number in text contains no '-'. */
  lemma NoDash(n: nat, w: nat)
    ensures '-' !in PadZeros(FormatInt(n), w)
  {
    var p := PadZeros(FormatInt(n), w);
    forall i | 0 <= i < |p| ensures p[i] != '-' {
      if |FormatInt(n)| < w && i < w - |FormatInt(n)| {
        assert p[i] == Zeros(w - |FormatInt(n)|)[i];
      }
    }
  }

  /** Three dash-free parts joined by dashes split back into those parts. */
  lemma SplitDate(ys: string, ms: string, ds: string)
    requires '-' !in ys && '-' !in ms && '-' !in ds
    ensures Split(ys + "-" + ms + "-" + ds, '-') == [ys, ms, ds]
  {
    SplitNoSep(ds, '-');
    SplitAtFirst(ms, '-', ds);
    assert ys + "-" + ms + "-" + ds == ys + ['-'] + (ms + ['-'] + ds);
    SplitAtFirst(ys, '-', ms + ['-'] + ds);
  }

  /** Round trip: a formatted date with a non-negative year parses back into its parts. */
  lemma FormatParseDate(y: int, m: int, d: int)
    requires 0 <= y <= INT_MAX && 1 <= m <= 12 && 1 <= d <= 31
    ensures ParseDate(Some(FormatDate(y, m, d))) == Parts(Some(y), Some(m), Some(d))
  {
    var ys, ms, ds := FormatInt(y), PadZeros(FormatInt(m), 2), PadZeros(FormatInt(d), 2);
    NoDash(y, 0);
    NoDash(m, 2);
    NoDash(d, 2);
    assert PadZeros(ys, 0) == ys;
    SplitDate(ys, ms, ds);
    PadZerosParse(y, 0);
    PadZerosParse(m, 2);
    PadZerosParse(d, 2);
  }

  /** What the picker does after a selection changed. */
  datatype Emit = NoEmit | EmitDate(value: Option<string>)

  /**
   * A complete selection emits its text when that differs from the current date; an
   * incomplete one clears a date that is set.
   */
  function Emission(p: Parts, date: Option<string>): (e: Emit)
    ensures p.year.Some? && p.month.Some? && p.day.Some? ==>
      var text := FormatDate(p.year.value, p.month.value, p.day.value);
      e == if date == Some(text) then NoEmit else EmitDate(Some(text))
    ensures !(p.year.Some? && p.month.Some? && p.day.Some?) ==>
      e == if date.Some? then EmitDate(None) else NoEmit
  {
    if p.year.Some? && p.month.Some? && p.day.Some? then
      var text := FormatDate(p.year.value, p.month.value, p.day.value);
      if date != Some(text) then EmitDate(Some(text)) else NoEmit
    else if date.Some? then EmitDate(None)
    else NoEmit
  }

  /**
   * Once the owner passes the emitted date back, re-reading it gives the same
   * selection, which then emits nothing: the exchange settles after one round.
   */
  lemma EmissionSettles(y: int, m: int, d: int, date: Option<string>)
    requires 0 <= y <= INT_MAX && 1 <= m <= 12 && 1 <= d <= 31
    ensures var p := Parts(Some(y), Some(m), Some(d));
      Emission(p, date).EmitDate? ==>
        var next := Emission(p, date).value;
        ParseDate(next) == p && Emission(ParseDate(next), next) == NoEmit
  {
    FormatParseDate(y, m, d);
  }

  /** The clear button, shown only while a date is set, emits null. */
  function ClearClicked(date: Option<string>): (e: Emit)
    ensures e == if date.Some? then EmitDate(None) else NoEmit
  {
    if date.Some? then EmitDate(None) else NoEmit
  }

  /** The proleptic Gregorian leap-year rule of `java.time`. */
  predicate IsLeap(y: int) {
    y % 4 == 0 && (y % 100 != 0 || y % 400 == 0)
  }

  /**
   * `YearMonth.of(y, m).lengthOfMonth()`; `None` where `YearMonth.of` throws, for a
   * month outside 1..12 or a year outside +-999999999.
   */
  function LengthOfMonth(y: int, m: int): (r: Option<int>)
    ensures r.None? <==> !(1 <= m <= 12 && -999_999_999 <= y <= 999_999_999)
    ensures r.Some? ==> 28 <= r.value <= 31
    ensures r.Some? && m == 2 ==> r.value == (if IsLeap(y) then 29 else 28)
    ensures r.Some? && m in {4, 6, 9, 11} ==> r.value == 30
    ensures r.Some? && m !in {2, 4, 6, 9, 11} ==> r.value == 31
  {
    if !(1 <= m <= 12 && -999_999_999 <= y <= 999_999_999) then None
    else if m == 2 then Some(if IsLeap(y) then 29 else 28)
    else if m == 4 || m == 6 || m == 9 || m == 11 then Some(30)
    else Some(31)
  }

  /** The number of selectable days: the month's length, or 31 when it cannot be computed. */
  function DaysInMonth(p: Parts): (n: int)
    ensures 28 <= n <= 31
    ensures p.year.None? || p.month.None? ==> n == 31
    ensures p.year.Some? && p.month.Some? ==>
      n == LengthOfMonth(p.year.value, p.month.value).GetOr(31)
  {
    if p.year.Some? && p.month.Some? then
      LengthOfMonth(p.year.value, p.month.value).GetOr(31)
    else 31
  }

  /** Every day of a month that exists is offered by the day dropdown. */
  lemma DaysCoverMonth(y: int, m: int, d: int)
    requires -999_999_999 <= y <= 999_999_999 && 1 <= m <= 12 && 1 <= d
    requires LengthOfMonth(y, m).Some? && d <= LengthOfMonth(y, m).value
    ensures d in RangeFromOne(DaysInMonth(Parts(Some(y), Some(m), None)))
  {
    var days := RangeFromOne(DaysInMonth(Parts(Some(y), Some(m), None)));
    assert days[d - 1] == d;
  }

  /** The year options: ten years either side of the current one. */
  function YearOptions(currentYear: int): (r: seq<int>)
    ensures |r| == 21 && r[0] == currentYear - 10 && r[20] == currentYear + 10 && r[10] == currentYear
    ensures forall i :: 0 <= i < |r| - 1 ==> r[i + 1] == r[i] + 1
  {
    seq(21, i => currentYear - 10 + i)
  }

  /** `(1..n).toList()`. */
  function RangeFromOne(n: int): (r: seq<int>)
    ensures |r| == if n < 1 then 0 else n
    ensures forall i :: 0 <= i < |r| ==> r[i] == i + 1
  {
    if n < 1 then [] else seq(n, i => i + 1)
  }

  /** The picker's selections, as the component holds them. */
  class DateSelection {
    var selection: Parts

    /** The selections start as the parsed initial date. */
    constructor (date: Option<string>)
      ensures selection == ParseDate(date)
    {
      selection := ParseDate(date);
    }

    /**
     * The owner passed a new date: null clears all three selections, a three-part
     * text sets them, and any other text leaves them as they were.
     */
    method DateChanged(date: Option<string>)
      modifies this
      ensures date.None? ==> selection == NoParts
      ensures date.Some? && |Split(date.value, '-')| == 3 ==> selection == ParseDate(date)
      ensures date.Some? && |Split(date.value, '-')| != 3 ==> selection == old(selection)
    {
      match date
      case None =>
        selection := NoParts;
      case Some(text) =>
        var parts := Split(text, '-');
        if |parts| == 3 {
          selection := Parts(ParseInt(parts[0]), ParseInt(parts[1]), ParseInt(parts[2]));
        }
    }

    /** A selected day beyond the month's length is unset; year and month stay. */
    method ResetDay()
      modifies this
      ensures selection.year == old(selection.year) && selection.month == old(selection.month)
      ensures old(selection.day).Some? && old(selection.day).value > DaysInMonth(old(selection))
        ==> selection.day.None?
      ensures !(old(selection.day).Some? && old(selection.day).value > DaysInMonth(old(selection)))
        ==> selection.day == old(selection.day)
      ensures selection.day.Some? ==> selection.day.value <= DaysInMonth(selection)
    {
      var days := DaysInMonth(selection);
      if selection.day.Some? && selection.day.value > days {
        selection := selection.(day := None);
      }
    }

    /** Choosing a year, month or day in a dropdown. */
    method Select(year: Option<int>, month: Option<int>, day: Option<int>)
      modifies this
      ensures selection.year == (if year.Some? then year else old(selection.year))
      ensures selection.month == (if month.Some? then month else old(selection.month))
      ensures selection.day == (if day.Some? then day else old(selection.day))
    {
      if year.Some? { selection := selection.(year := year); }
      if month.Some? { selection := selection.(month := month); }
      if day.Some? { selection := selection.(day := day); }
    }
  }
}
