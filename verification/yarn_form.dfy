/** The input rules of the yarn edit form: integer fields, the saved amount and change detection. */
module YarnForm {
  import opened Wrappers
  import opened Text

  // ---------------------------------------------------------------------------
  // normalizeIntInput
  // ---------------------------------------------------------------------------

  /** `input.filter { it.isDigit() }`. */
  function FilterDigits(s: string): (r: string)
    ensures AllDigits(r)
    ensures |r| <= |s|
  {
    if s == [] then [] else (if IsDigit(s[0]) then [s[0]] else []) + FilterDigits(s[1..])
  }

  /** Filtering distributes over concatenation: the digits keep their input order. */
  lemma {:induction false} FilterDigitsConcat(a: string, b: string)
    ensures FilterDigits(a + b) == FilterDigits(a) + FilterDigits(b)
  {
    if a == [] {
      assert a + b == b;
    } else {
      var head := if IsDigit(a[0]) then [a[0]] else [];
      assert (a + b)[1..] == a[1..] + b;
      calc {
        FilterDigits(a + b);
        head + FilterDigits(a[1..] + b);
        { FilterDigitsConcat(a[1..], b); }
        head + (FilterDigits(a[1..]) + FilterDigits(b));
        FilterDigits(a) + FilterDigits(b);
      }
    }
  }

  /** Exactly the digits of the input survive the filter. */
  lemma {:induction false} FilterDigitsMembers(s: string)
    ensures forall c :: c in FilterDigits(s) <==> c in s && IsDigit(c)
  {
    if s != [] {
      FilterDigitsMembers(s[1..]);
      assert s == [s[0]] + s[1..];
    }
  }

  /** Filtering keeps a string of digits as it is. */
  lemma {:induction false} FilterDigitsKeepsDigits(s: string)
    requires AllDigits(s)
    ensures FilterDigits(s) == s
  {
    if s != [] {
      FilterDigitsKeepsDigits(s[1..]);
    }
  }

  /**
   * Keeps only the decimal digits and then drops one leading ASCII '0' when more
   * digits follow it.
   */
  function NormalizeIntInput(s: string): (r: string)
    ensures AllDigits(r)
    ensures |r| <= |s|
    ensures var f := FilterDigits(s);
      if |f| > 1 && f[0] == '0' then r == f[1..] else r == f
  {
    var f := FilterDigits(s);
    if |f| > 1 && f[0] == '0' then f[1..] else f
  }

  /** Normalising never changes the number the digits denote. */
  lemma NormalizeKeepsValue(s: string)
    ensures DigitsValue(NormalizeIntInput(s)) == DigitsValue(FilterDigits(s))
  {
    var f := FilterDigits(s);
    if |f| > 1 && f[0] == '0' {
      assert f == "0" + f[1..];
      LeadingZeroValue(f[1..]);
    }
  }

  /** `"0"` stays `"0"`, `"007"` becomes `"07"`, so a second pass changes the result again. */
  lemma NormalizeExamples()
    ensures NormalizeIntInput("0") == "0"
    ensures NormalizeIntInput("a1b2") == "12"
    ensures NormalizeIntInput("007") == "07"
    ensures NormalizeIntInput(NormalizeIntInput("007")) == "7"
  {
    assert IsDigit('0') && IsDigit('7') && IsDigit('1') && IsDigit('2');
    BelowArabicIndic('a');
    BelowArabicIndic('b');
    FilterDigitsKeepsDigits("0");
    FilterDigitsKeepsDigits("007");
    FilterDigitsKeepsDigits("07");
    assert FilterDigits("a1b2") == "12";
  }

  /** Digits outside ASCII are kept too: Arabic-Indic "12" stays as typed. */
  lemma ArabicIndicInputKept()
    ensures NormalizeIntInput("\U{0661}\U{0662}") == "\U{0661}\U{0662}"
  {
    var s := "\U{0661}\U{0662}";
    ArabicIndicDigit(1);
    ArabicIndicDigit(2);
    assert s[0] == (0x0660 + 1) as char && s[1] == (0x0660 + 2) as char;
    FilterDigitsKeepsDigits(s);
  }

  // ---------------------------------------------------------------------------
  // Saving
  // ---------------------------------------------------------------------------

  /** `usagesForYarn.sumOf { it.amount }`. */
  function TotalUsed(amounts: seq<int>): int {
    if amounts == [] then 0 else amounts[0] + TotalUsed(amounts[1..])
  }

  /**
   * The amount stored on save: the entered amount, 0 when it is not an `Int`, but
   * never less than what the yarn's usages already take.
   */
  function SavedAmount(amountText: string, totalUsedAmount: int): (r: int)
    ensures r >= totalUsedAmount
    ensures r >= ParseInt(amountText).GetOr(0)
    ensures r == totalUsedAmount || r == ParseInt(amountText).GetOr(0)
  {
    var entered := ParseInt(amountText).GetOr(0);
    if entered >= totalUsedAmount then entered else totalUsedAmount
  }

  /** An entered amount that covers the usages is stored as entered. */
  lemma SavedAmountAsEntered(x: int, totalUsedAmount: int)
    requires IsInt32(x) && x >= totalUsedAmount
    ensures SavedAmount(FormatInt(x), totalUsedAmount) == x
  {
    FormatParse(x);
  }

  // ---------------------------------------------------------------------------
  // Change detection for a new yarn
  // ---------------------------------------------------------------------------

  /** The twelve text fields of the form. */
  datatype YarnTexts = YarnTexts(
    name: string, color: string, colorCode: string, brand: string, blend: string,
    dyeLot: string, storagePlace: string, weightPerSkein: string, meteragePerSkein: string,
    amount: string, added: string, notes: string)

  /** The form for a new yarn as it opens: every field empty. */
  const EmptyTexts := YarnTexts("", "", "", "", "", "", "", "", "", "", "", "")

  /** A new yarn has changes as soon as some text field is non-empty or some image was added. */
  function NewYarnHasChanges(t: YarnTexts, imageCount: nat): (r: bool)
    ensures r <==> t != EmptyTexts || imageCount > 0
  {
    t.name != "" || t.color != "" || t.colorCode != "" || t.brand != "" || t.blend != ""
    || t.dyeLot != "" || t.storagePlace != "" || t.weightPerSkein != ""
    || t.meteragePerSkein != "" || t.amount != "" || t.added != "" || t.notes != ""
    || imageCount > 0
  }
}
