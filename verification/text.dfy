/**
 * The Kotlin string operations the app's logic relies on: `isWhitespace`/`isBlank`,
 * `trim`, `split` on one delimiter, `toIntOrNull`, `Int.toString`, `padStart`, `take`,
 * `removePrefix`, `replace`, `contains(…, ignoreCase = true)` and `compareTo`.
 * Strings are sequences of Unicode scalar values.
 */
module Text {
  import opened Wrappers

  /** Bounds of Kotlin's 32-bit `Int`. */
  const INT_MIN: int := -0x8000_0000
  const INT_MAX: int := 0x7FFF_FFFF

  predicate IsInt32(x: int) {
    INT_MIN <= x <= INT_MAX
  }

  // ---------------------------------------------------------------------------
  // Whitespace and blankness
  // ---------------------------------------------------------------------------

  /** `Char.isWhitespace`: Java's `isWhitespace` or `isSpaceChar` (categories Zs, Zl, Zp). */
  predicate IsWhitespace(c: char) {
    var n := c as int;
    (0x09 <= n <= 0x0D) || (0x1C <= n <= 0x20) || n == 0xA0 || n == 0x1680
    || (0x2000 <= n <= 0x200A) || n == 0x2028 || n == 0x2029 || n == 0x202F
    || n == 0x205F || n == 0x3000
  }

  /** `CharSequence.isBlank`: empty or whitespace only. */
  predicate IsBlank(s: string) {
    forall i :: 0 <= i < |s| ==> IsWhitespace(s[i])
  }

  /** `ifBlank { null }`: a blank text becomes null, anything else is kept verbatim. */
  function BlankToNull(s: string): (r: Option<string>)
    ensures r == None <==> IsBlank(s)
    ensures r.Some? ==> r.value == s
  {
    if IsBlank(s) then None else Some(s)
  }

  /** `String.trim`: drops whitespace at both ends. */
  function Trim(s: string): (r: string)
    ensures |r| <= |s|
    ensures r != [] ==> !IsWhitespace(r[0]) && !IsWhitespace(r[|r| - 1])
    ensures (s == [] || (!IsWhitespace(s[0]) && !IsWhitespace(s[|s| - 1]))) ==> r == s
  {
    TrimEnd(TrimStart(s))
  }

  function TrimStart(s: string): (r: string)
    ensures |r| <= |s| && r == s[|s| - |r|..]
    ensures r != [] ==> !IsWhitespace(r[0])
    ensures (s == [] || !IsWhitespace(s[0])) ==> r == s
  {
    if s != [] && IsWhitespace(s[0]) then TrimStart(s[1..]) else s
  }

  function TrimEnd(s: string): (r: string)
    ensures |r| <= |s| && r == s[..|r|]
    ensures r != [] ==> !IsWhitespace(r[|r| - 1])
    ensures (s == [] || !IsWhitespace(s[|s| - 1])) ==> r == s
  {
    if s != [] && IsWhitespace(s[|s| - 1]) then TrimEnd(s[..|s| - 1]) else s
  }

  // ---------------------------------------------------------------------------
  // Splitting, prefixes, replacing
  // ---------------------------------------------------------------------------

  /** `split(sep)` with a one-character delimiter: every part is kept, empty ones included. */
  function Split(s: string, sep: char): (parts: seq<string>)
    ensures |parts| >= 1
  {
    if s == [] then [""]
    else if s[0] == sep then [""] + Split(s[1..], sep)
    else
      var rest := Split(s[1..], sep);
      [[s[0]] + rest[0]] + rest[1..]
  }

  /** A string without the delimiter is one part. */
  lemma {:induction false} SplitNoSep(a: string, sep: char)
    requires sep !in a
    ensures Split(a, sep) == [a]
  {
    if a != [] {
      assert a == [a[0]] + a[1..];
      SplitNoSep(a[1..], sep);
    }
  }

  /** The first delimiter ends the first part. */
  lemma {:induction false} SplitAtFirst(a: string, sep: char, b: string)
    requires sep !in a
    ensures Split(a + [sep] + b, sep) == [a] + Split(b, sep)
  {
    if a == [] {
      assert a + [sep] + b == [sep] + b;
      assert ([sep] + b)[1..] == b;
    } else {
      var s := a + [sep] + b;
      assert s[0] == a[0] && s[1..] == a[1..] + [sep] + b;
      SplitAtFirst(a[1..], sep, b);
      assert [a[0]] + a[1..] == a;
    }
  }

  /** `take(n)`. */
  function Take(s: string, n: nat): (r: string)
    ensures |r| == if n < |s| then n else |s|
    ensures r == s[..|r|]
  {
    if n < |s| then s[..n] else s
  }

  predicate StartsWith(s: string, prefix: string) {
    |prefix| <= |s| && s[..|prefix|] == prefix
  }

  /** `removePrefix`: drops `prefix` when `s` starts with it, otherwise returns `s`. */
  function RemovePrefix(s: string, prefix: string): (r: string)
    ensures StartsWith(s, prefix) ==> prefix + r == s
    ensures !StartsWith(s, prefix) ==> r == s
  {
    if StartsWith(s, prefix) then s[|prefix|..] else s
  }

  /** `replace(old, new)` for a non-empty `old`: every occurrence, scanning left to right. */
  function ReplaceAll(s: string, pat: string, rep: string): (r: string)
    requires pat != []
    decreases |s|
  {
    if |s| < |pat| then s
    else if s[..|pat|] == pat then rep + ReplaceAll(s[|pat|..], pat, rep)
    else [s[0]] + ReplaceAll(s[1..], pat, rep)
  }

  predicate OccursAt(pat: string, s: string, i: nat) {
    i + |pat| <= |s| && s[i..i + |pat|] == pat
  }

  ghost predicate OccursIn(pat: string, s: string) {
    exists i: nat :: OccursAt(pat, s, i)
  }

  /** Replacing a pattern that does not occur changes nothing. */
  lemma {:induction false} ReplaceAllAbsent(s: string, pat: string, rep: string)
    requires pat != [] && !OccursIn(pat, s)
    ensures ReplaceAll(s, pat, rep) == s
    decreases |s|
  {
    if |s| >= |pat| {
      assert !OccursAt(pat, s, 0);
      assert !OccursIn(pat, s[1..]) by {
        forall i: nat | OccursAt(pat, s[1..], i)
          ensures false
        {
          assert s[1..][i..i + |pat|] == s[i + 1..i + 1 + |pat|];
          assert OccursAt(pat, s, i + 1);
        }
      }
      ReplaceAllAbsent(s[1..], pat, rep);
      assert [s[0]] + s[1..] == s;
    }
  }

  // ---------------------------------------------------------------------------
  // Digits and integers
  // ---------------------------------------------------------------------------

  /**
   * The code points of the digit zero of every block of Unicode decimal digits
   * (category Nd) in the Basic Multilingual Plane; each block holds ten digits. The
   * ASCII block comes first, then the others in code point order.
   */
  const DigitZeros: seq<int> := [0x0030] + OtherDigitZeros

  const OtherDigitZeros: seq<int> := [
    0x0660, 0x06F0, 0x07C0, 0x0966, 0x09E6, 0x0A66, 0x0AE6, 0x0B66, 0x0BE6,
    0x0C66, 0x0CE6, 0x0D66, 0x0DE6, 0x0E50, 0x0ED0, 0x0F20, 0x1040, 0x1090, 0x17E0,
    0x1810, 0x1946, 0x19D0, 0x1A80, 0x1A90, 0x1B50, 0x1BB0, 0x1C40, 0x1C50, 0xA620,
    0xA8D0, 0xA900, 0xA9D0, 0xA9F0, 0xAA50, 0xABF0, 0xFF10]

  /** The offset of `n` into the first ten-digit block of `zeros` that holds it, or -1. */
  function DigitIn(n: int, zeros: seq<int>): (d: int)
    ensures -1 <= d <= 9
  {
    if zeros == [] then -1
    else if zeros[0] <= n < zeros[0] + 10 then n - zeros[0]
    else DigitIn(n, zeros[1..])
  }

  /** Block `i` of `zeros` holds `n`. */
  predicate InBlock(n: int, zeros: seq<int>, i: int) {
    0 <= i < |zeros| && zeros[i] <= n < zeros[i] + 10
  }

  /** `n` is found exactly when some block holds it, and then as its offset from that block's zero. */
  lemma {:induction false} DigitInBlocks(n: int, zeros: seq<int>)
    ensures DigitIn(n, zeros) >= 0 <==> exists i :: InBlock(n, zeros, i)
    ensures DigitIn(n, zeros) >= 0 ==>
      exists i :: InBlock(n, zeros, i) && DigitIn(n, zeros) == n - zeros[i]
  {
    if zeros != [] && !(zeros[0] <= n < zeros[0] + 10) {
      DigitInBlocks(n, zeros[1..]);
      if exists i :: InBlock(n, zeros, i) {
        var i :| InBlock(n, zeros, i);
        assert InBlock(n, zeros[1..], i - 1);
      }
      if DigitIn(n, zeros) >= 0 {
        var i :| InBlock(n, zeros[1..], i) && DigitIn(n, zeros[1..]) == n - zeros[1..][i];
        assert InBlock(n, zeros, i + 1);
      }
    } else if zeros != [] {
      assert InBlock(n, zeros, 0);
    }
  }

  /**
   * `Character.digit(c, 10)`: the decimal value of a digit, -1 for anything else; the
   * digits are the characters of the blocks listed in `DigitZeros` (see `DigitOfBlocks`).
   */
  function DigitOf(c: char): (d: int)
    ensures -1 <= d <= 9
    ensures '0' <= c <= '9' ==> d == (c as int) - ('0' as int)
  {
    var n := c as int;
    if '0' <= c <= '9' then n - 0x0030 else DigitIn(n, DigitZeros)
  }

  /** Block `i` of the digit table holds `c`. */
  predicate InDigitBlock(c: char, i: int) {
    InBlock(c as int, DigitZeros, i)
  }

  /**
   * A character is a digit exactly when it lies in one of the ten-digit blocks, and its
   * value is its offset from the block's zero.
   */
  lemma DigitOfBlocks(c: char)
    ensures DigitOf(c) >= 0 <==> exists i :: InDigitBlock(c, i)
    ensures DigitOf(c) >= 0 ==>
      exists i :: InDigitBlock(c, i) && DigitOf(c) == (c as int) - DigitZeros[i]
  {
    if '0' <= c <= '9' {
      assert DigitZeros[0] == 0x0030;
      assert InDigitBlock(c, 0);
    } else {
      var n := c as int;
      assert DigitOf(c) == DigitIn(n, DigitZeros);
      DigitInBlocks(n, DigitZeros);
      if DigitOf(c) >= 0 {
        var i :| InBlock(n, DigitZeros, i) && DigitIn(n, DigitZeros) == n - DigitZeros[i];
        assert InDigitBlock(c, i);
      }
      if exists i :: InDigitBlock(c, i) {
        var i :| InDigitBlock(c, i);
        assert InBlock(n, DigitZeros, i);
      }
    }
  }

  /** The blocks after the ASCII one all lie at or above U+0660. */
  lemma OtherZerosAbove()
    ensures forall i :: 0 <= i < |OtherDigitZeros| ==> OtherDigitZeros[i] >= 0x0660
  {
  }

  /** No digit lies below ASCII '0', so the sign test of `toIntOrNull` never sees one. */
  lemma NoDigitBelowZero(c: char)
    requires c < '0'
    ensures !IsDigit(c)
  {
    DigitInSkip(c as int, 0x0030, OtherDigitZeros);
    DigitInBlocks(c as int, OtherDigitZeros);
    OtherZerosAbove();
  }

  /** Below U+0660 the only digits are the ASCII ones. */
  lemma BelowArabicIndic(c: char)
    requires (c as int) < 0x0660
    ensures IsDigit(c) <==> '0' <= c <= '9'
  {
    if !('0' <= c <= '9') {
      DigitInSkip(c as int, 0x0030, OtherDigitZeros);
      DigitInBlocks(c as int, OtherDigitZeros);
      OtherZerosAbove();
    }
  }

  /** The Arabic-Indic block U+0660..U+0669 holds the digits 0..9. */
  lemma ArabicIndicDigit(k: int)
    requires 0 <= k < 10
    ensures DigitOf((0x0660 + k) as char) == k
  {
    DigitInSkip(0x0660 + k, 0x0030, OtherDigitZeros);
    assert OtherDigitZeros[0] == 0x0660;
  }

  /** `toIntOrNull` reads U+0661 U+0662 as 12. */
  lemma ArabicIndicParse()
    ensures ParseInt("\U{0661}\U{0662}") == Some(12)
  {
    var s := "\U{0661}\U{0662}";
    ArabicIndicDigit(1);
    ArabicIndicDigit(2);
    assert s[0] == (0x0660 + 1) as char && s[1] == (0x0660 + 2) as char;
    assert AllDigits(s);
    var first := s[..1];
    assert first[..0] == [] && first[0] == s[0];
    assert DigitsValue(first) == 1;
    assert DigitsValue(s) == DigitsValue(first) * 10 + DigitOf(s[1]);
    assert !(s[0] < '0');
  }

  /** A block that does not hold `n` does not change where `n` is found. */
  lemma DigitInSkip(n: int, zero: int, rest: seq<int>)
    requires !(zero <= n < zero + 10)
    ensures DigitIn(n, [zero] + rest) == DigitIn(n, rest)
  {
    assert ([zero] + rest)[1..] == rest;
  }

  /** `Char.isDigit`: a Unicode decimal digit. */
  predicate IsDigit(c: char) {
    DigitOf(c) >= 0
  }

  predicate AllDigits(s: string) {
    forall i :: 0 <= i < |s| ==> IsDigit(s[i])
  }

  /** The value of a run of decimal digits, most significant first. */
  function DigitsValue(s: string): (v: nat)
    requires AllDigits(s)
  {
    if s == [] then 0 else DigitsValue(s[..|s| - 1]) * 10 + DigitOf(s[|s| - 1])
  }

  /**
   * Kotlin `String.toIntOrNull()`: an optional '+' or '-', then at least one digit, with
   * the value within `Int`; null for anything else.
   */
  function ParseInt(s: string): (r: Option<int>)
    ensures r.Some? ==> IsInt32(r.value)
    ensures s != [] && AllDigits(s) && DigitsValue(s) <= INT_MAX ==> r == Some(DigitsValue(s))
    ensures |s| > 1 && s[0] == '+' && AllDigits(s[1..]) && DigitsValue(s[1..]) <= INT_MAX ==>
      r == Some(DigitsValue(s[1..]))
    ensures |s| > 1 && s[0] == '-' && AllDigits(s[1..]) && DigitsValue(s[1..]) <= -INT_MIN ==>
      r == Some(-(DigitsValue(s[1..]) as int))
    ensures r.Some? ==>
      || (s != [] && AllDigits(s) && r.value == DigitsValue(s))
      || (|s| > 1 && s[0] == '+' && AllDigits(s[1..]) && r.value == DigitsValue(s[1..]))
      || (|s| > 1 && s[0] == '-' && AllDigits(s[1..]) && r.value == -(DigitsValue(s[1..]) as int))
  {
    if s == [] then None
    else if s[0] < '0' then
      NoDigitBelowZero(s[0]);
      if |s| == 1 then None
      else if s[0] == '-' then SignedValue(s[1..], true)
      else if s[0] == '+' then SignedValue(s[1..], false)
      else None
    else SignedValue(s, false)
  }

  /** A run of digits with a sign: its value when that fits in an `Int`, otherwise null. */
  function SignedValue(digits: string, negative: bool): (r: Option<int>)
    ensures r.Some? ==> IsInt32(r.value)
    ensures r.Some? ==>
      AllDigits(digits) && r.value == if negative then -(DigitsValue(digits) as int) else DigitsValue(digits)
    ensures AllDigits(digits) && DigitsValue(digits) <= (if negative then -INT_MIN else INT_MAX) ==>
      r.Some?
  {
    if !AllDigits(digits) then None
    else
      var m: int := DigitsValue(digits);
      var v := if negative then -m else m;
      if IsInt32(v) then Some(v) else None
  }

  /** ASCII digits of a natural number. */
  function NatToString(n: nat): (s: string)
    ensures s != [] && AllDigits(s)
    ensures forall i :: 0 <= i < |s| ==> '0' <= s[i] <= '9'
  {
    if n < 10 then [('0' as int + n) as char]
    else NatToString(n / 10) + [('0' as int + n % 10) as char]
  }

  /** Kotlin `Int.toString()`. */
  function FormatInt(x: int): (s: string)
    ensures s != []
  {
    if x < 0 then "-" + NatToString(-x) else NatToString(x)
  }

  lemma {:induction false} NatToStringValue(n: nat)
    ensures DigitsValue(NatToString(n)) == n
  {
    if n >= 10 {
      NatToStringValue(n / 10);
      var s := NatToString(n);
      assert s[..|s| - 1] == NatToString(n / 10);
    }
  }

  /** Round trip: `x.toString().toIntOrNull() == x` for every `Int`. */
  lemma FormatParse(x: int)
    requires IsInt32(x)
    ensures ParseInt(FormatInt(x)) == Some(x)
  {
    var s := FormatInt(x);
    if x < 0 {
      NatToStringValue(-x);
      assert s[0] == '-' && |s| > 1;
      assert s[1..] == NatToString(-x);
    } else {
      NatToStringValue(x);
    }
  }

  /** A leading zero does not change the value of a run of digits. */
  lemma {:induction false} LeadingZeroValue(t: string)
    requires AllDigits(t)
    ensures AllDigits("0" + t) && DigitsValue("0" + t) == DigitsValue(t)
  {
    var z := "0" + t;
    assert IsDigit('0');
    if t != [] {
      LeadingZeroValue(t[..|t| - 1]);
      assert z[..|z| - 1] == "0" + t[..|t| - 1];
    }
  }

  /** One zero taken off the front of a zero-padded text. */
  lemma ZerosCons(k: nat, t: string)
    requires k > 0
    ensures Zeros(k) + t == "0" + (Zeros(k - 1) + t)
  {
    assert Zeros(k) == "0" + Zeros(k - 1);
  }

  /** Any number of leading zeros leaves the value as it is. */
  lemma {:induction false} ZerosValue(k: nat, t: string)
    requires AllDigits(t)
    ensures AllDigits(Zeros(k) + t) && DigitsValue(Zeros(k) + t) == DigitsValue(t)
  {
    if k > 0 {
      var rest := Zeros(k - 1) + t;
      ZerosValue(k - 1, t);
      LeadingZeroValue(rest);
      ZerosCons(k, t);
    } else {
      assert Zeros(k) + t == t;
    }
  }

  /** Round trip: `n.toString().padStart(w, '0').toIntOrNull() == n` for a non-negative `Int`. */
  lemma PadZerosParse(n: nat, w: nat)
    requires IsInt32(n)
    ensures ParseInt(PadZeros(FormatInt(n), w)) == Some(n)
  {
    var s := FormatInt(n);
    NatToStringValue(n);
    var p := PadZeros(s, w);
    if |s| < w {
      ZerosValue(w - |s|, s);
      assert p[0] == '0';
    } else {
      assert '0' <= p[0] <= '9';
    }
    assert SignedValue(p, false) == Some(n);
  }

  /** The digits and sign of a formatted integer: no whitespace and no comma. */
  lemma FormatIntChars(x: int)
    ensures forall i :: 0 <= i < |FormatInt(x)| ==>
      FormatInt(x)[i] == '-' || '0' <= FormatInt(x)[i] <= '9'
  {
  }

  /** `k` ASCII zeros. */
  function Zeros(k: nat): (z: string)
    ensures |z| == k && forall i :: 0 <= i < k ==> z[i] == '0'
  {
    if k == 0 then [] else "0" + Zeros(k - 1)
  }

  /** `padStart(n, '0')`. */
  function PadZeros(s: string, n: nat): (r: string)
    ensures |r| == if |s| < n then n else |s|
    ensures |s| < n ==> r == Zeros(n - |s|) + s
    ensures |s| >= n ==> r == s
  {
    if |s| < n then Zeros(n - |s|) + s else s
  }

  // ---------------------------------------------------------------------------
  // Case-insensitive search and lexicographic order
  // ---------------------------------------------------------------------------

  function UpperAscii(c: char): char {
    if 'a' <= c <= 'z' then (c as int - 32) as char else c
  }

  /** `Char.equals(other, ignoreCase = true)`, with ASCII case folding. */
  predicate CharEqIgnoreCase(a: char, b: char) {
    a == b || UpperAscii(a) == UpperAscii(b)
  }

  predicate MatchesAt(s: string, i: nat, sub: string)
    requires i + |sub| <= |s|
  {
    forall j :: 0 <= j < |sub| ==> CharEqIgnoreCase(s[i + j], sub[j])
  }

  /** `contains(sub, ignoreCase = true)`: some window of `s` matches `sub`. */
  predicate ContainsIgnoreCase(s: string, sub: string) {
    exists i: nat :: i + |sub| <= |s| && MatchesAt(s, i, sub)
  }

  /** Every string contains the empty string. */
  lemma ContainsEmpty(s: string)
    ensures ContainsIgnoreCase(s, "")
  {
    assert MatchesAt(s, 0, "");
  }

  /** `String.compareTo(other) <= 0`: lexicographic by character, a prefix first. */
  predicate StrLe(a: string, b: string) {
    if a == [] then true
    else if b == [] then false
    else if a[0] != b[0] then a[0] < b[0]
    else StrLe(a[1..], b[1..])
  }

  lemma {:induction false} StrLeTotal(a: string, b: string)
    ensures StrLe(a, b) || StrLe(b, a)
  {
    if a != [] && b != [] && a[0] == b[0] {
      StrLeTotal(a[1..], b[1..]);
    }
  }

  lemma {:induction false} StrLeTrans(a: string, b: string, c: string)
    requires StrLe(a, b) && StrLe(b, c)
    ensures StrLe(a, c)
  {
    if a != [] && b != [] && c != [] && a[0] == b[0] && b[0] == c[0] {
      StrLeTrans(a[1..], b[1..], c[1..]);
    }
  }

  lemma {:induction false} StrLeAntisym(a: string, b: string)
    requires StrLe(a, b) && StrLe(b, a)
    ensures a == b
  {
    if a != [] && b != [] {
      StrLeAntisym(a[1..], b[1..]);
      assert a == [a[0]] + a[1..] && b == [b[0]] + b[1..];
    }
  }
}
