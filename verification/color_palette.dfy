/**
 * The colour palette used to tell yarns and projects apart: twenty hex RGB values made
 * 90% opaque, and the colour picked for an id by its remainder modulo the palette size.
 */
module ColorPalette {
  import opened Wrappers
  import opened Text

  const HexColors: seq<string> := [
    "#9deee5", "#ecaa9a", "#53c6ef", "#e8e7b0", "#74aff3",
    "#a1bb7a", "#c4b7ea", "#8ac793", "#eaaecf", "#80d4ba",
    "#8dc8f9", "#b9d79e", "#a1bde6", "#bbbf8b", "#55cdd8",
    "#dcbe96", "#8cd1e5", "#bdefc5", "#8dc3b8", "#98c3a6"]

  /** The alpha byte 0xE6 in the top byte of an ARGB word. */
  const ALPHA: int := 0xE600_0000
  const LONG_MAX: int := 0x7FFF_FFFF_FFFF_FFFF
  const LONG_MIN: int := -0x8000_0000_0000_0000
  /** 2^64: a negative `Long` `v` has the two's complement form `v + LONG_WORD`. */
  const LONG_WORD: int := 0x1_0000_0000_0000_0000
  const WORD: int := 0x1_0000_0000

  /** A colour as the 32-bit ARGB `Int` it is built from. */
  type Color = int

  const Transparent: Color := 0

  predicate IsHexDigit(c: char) {
    '0' <= c <= '9' || 'a' <= c <= 'f' || 'A' <= c <= 'F'
  }

  function HexDigitValue(c: char): (d: nat)
    requires IsHexDigit(c)
    ensures d < 16
  {
    if '0' <= c <= '9' then (c - '0') as nat
    else if 'a' <= c <= 'f' then (c - 'a') as nat + 10
    else (c - 'A') as nat + 10
  }

  predicate AllHex(s: string) {
    forall i :: 0 <= i < |s| ==> IsHexDigit(s[i])
  }

  /** The value of a run of hex digits. */
  function HexValue(s: string): nat
    requires AllHex(s)
  {
    if s == [] then 0 else HexValue(s[..|s| - 1]) * 16 + HexDigitValue(s[|s| - 1])
  }

  function Pow16(n: nat): (p: nat)
    ensures p >= 1
  {
    if n == 0 then 1 else 16 * Pow16(n - 1)
  }

  lemma {:induction false} HexValueBound(s: string)
    requires AllHex(s)
    ensures HexValue(s) < Pow16(|s|)
  {
    if s != [] {
      HexValueBound(s[..|s| - 1]);
    }
  }

  /**
   * `toLong(16)` on ASCII hex digits: an optional `+` or `-`, then at least one hex
   * digit, with the value in the `Long` range; `None` (the `NumberFormatException`)
   * for anything else.
   */
  function ParseHex(s: string): (r: Option<int>)
    ensures r.Some? ==> LONG_MIN <= r.value <= LONG_MAX
    ensures AllHex(s) ==>
      r == (if s != [] && HexValue(s) <= LONG_MAX then Some(HexValue(s)) else None)
    ensures s != [] && s[0] == '+' ==>
      r == (if |s| > 1 && AllHex(s[1..]) && HexValue(s[1..]) <= LONG_MAX then Some(HexValue(s[1..])) else None)
    ensures s != [] && s[0] == '-' ==>
      r == (if |s| > 1 && AllHex(s[1..]) && HexValue(s[1..]) <= LONG_MAX + 1 then Some(-(HexValue(s[1..]) as int)) else None)
    ensures r.Some? ==> AllHex(s) || s[0] == '+' || s[0] == '-'
  {
    if s == [] then None
    else
      var negative := s[0] == '-';
      var digits := if s[0] == '-' || s[0] == '+' then s[1..] else s;
      var limit := if negative then LONG_MAX + 1 else LONG_MAX;
      if digits != [] && AllHex(digits) && HexValue(digits) <= limit then
        Some(if negative then -(HexValue(digits) as int) else HexValue(digits))
      else None
  }

  /** Bitwise OR of two non-negative numbers, one bit at a time from the lowest. */
  function BitOr(a: nat, b: nat): nat
    decreases a + b
  {
    if a == 0 then b
    else if b == 0 then a
    else BitOr(a / 2, b / 2) * 2 + (if a % 2 == 1 || b % 2 == 1 then 1 else 0)
  }

  function Pow2(k: nat): (p: nat)
    ensures p >= 1
  {
    if k == 0 then 1 else 2 * Pow2(k - 1)
  }

  /** When the bits of `a` lie below bit `k` and those of `c * 2^k` at or above it, OR adds. */
  lemma {:induction false} DisjointBitOr(a: nat, c: nat, k: nat)
    requires a < Pow2(k)
    ensures BitOr(a, c * Pow2(k)) == a + c * Pow2(k)
  {
    var b := c * Pow2(k);
    if a != 0 && b != 0 {
      var m := c * Pow2(k - 1);
      assert b == 2 * m;
      assert b / 2 == m && b % 2 == 0;
      DisjointBitOr(a / 2, c, k - 1);
      assert BitOr(a, b) == (a / 2 + m) * 2 + a % 2;
    }
  }

  /** OR keeps two numbers below `2^k` below it. */
  lemma {:induction false} BitOrBelow(a: nat, b: nat, k: nat)
    requires a < Pow2(k) && b < Pow2(k)
    ensures BitOr(a, b) < Pow2(k)
    decreases a + b
  {
    if a != 0 && b != 0 {
      assert k > 0;
      assert a / 2 < Pow2(k - 1) && b / 2 < Pow2(k - 1);
      BitOrBelow(a / 2, b / 2, k - 1);
    }
  }

  lemma Pow2Long()
    ensures Pow2(63) == LONG_MAX + 1 && Pow2(64) == LONG_WORD
  {
    assert Pow2(8) == 0x100;
    assert Pow2(16) == 0x1_0000;
    assert Pow2(24) == 0x100_0000;
    assert Pow2(32) == 0x1_0000_0000;
    assert Pow2(40) == 0x100_0000_0000;
    assert Pow2(48) == 0x1_0000_0000_0000;
    assert Pow2(56) == 0x100_0000_0000_0000;
  }

  /**
   * `or 0xE6000000L` on a `Long`, bit by bit on its 64-bit two's complement form: the
   * result is again a `Long`, and negative exactly when the operand is.
   */
  function OrAlpha(v: int): (r: int)
    requires LONG_MIN <= v <= LONG_MAX
    ensures r <= LONG_MAX
    ensures r < 0 <==> v < 0
  {
    Pow2Long();
    if v >= 0 then
      BitOrBelow(v, ALPHA, 63);
      BitOr(v, ALPHA)
    else
      BitOrBelow(v + LONG_WORD, ALPHA, 64);
      BitOr(v + LONG_WORD, ALPHA) - LONG_WORD
  }

  /** Below 2^24 the low three bytes and the alpha byte do not overlap, so the OR adds. */
  lemma OrAlphaAdds(v: int)
    requires 0 <= v < 0x100_0000
    ensures OrAlpha(v) == v + ALPHA
  {
    assert Pow2(24) == 0x100_0000 by {
      assert Pow2(8) == 0x100;
      assert Pow2(16) == 0x1_0000;
    }
    DisjointBitOr(v, 0xE6, 24);
  }

  /** `Long.toInt()`: the low 32 bits, read as a signed number. */
  function ToInt32(x: int): (r: int)
    ensures INT_MIN <= r <= INT_MAX
    ensures (r - x) % WORD == 0
  {
    var w := x % WORD;
    if w > INT_MAX then w - WORD else w
  }

  /** One palette entry, `None` where `toLong(16)` throws. */
  function ColorOf(hex: string): (r: Option<Color>)
    ensures r.Some? <==> ParseHex(RemovePrefix(hex, "#")).Some?
  {
    match ParseHex(RemovePrefix(hex, "#"))
    case Some(v) => Some(ToInt32(OrAlpha(v)))
    case None => None
  }

  /** `map { ... }`: the first entry that fails to parse makes the whole palette fail. */
  function ColorsOf(hexes: seq<string>): (r: Option<seq<Color>>)
    ensures r.Some? <==> forall i :: 0 <= i < |hexes| ==> ColorOf(hexes[i]).Some?
    ensures r.Some? ==> |r.value| == |hexes|
    ensures r.Some? ==> forall i :: 0 <= i < |hexes| ==> r.value[i] == ColorOf(hexes[i]).value
  {
    if hexes == [] then Some([])
    else match (ColorOf(hexes[0]), ColorsOf(hexes[1..]))
      case (Some(c), Some(rest)) => Some([c] + rest)
      case _ => None
  }

  /** A `#` followed by six hex digits. */
  predicate IsRgb(hex: string) {
    && |hex| == 7 && hex[0] == '#'
    && IsHexDigit(hex[1]) && IsHexDigit(hex[2]) && IsHexDigit(hex[3])
    && IsHexDigit(hex[4]) && IsHexDigit(hex[5]) && IsHexDigit(hex[6])
  }

  /**
   * An RGB text becomes the colour with alpha 0xE6 over its RGB value; as a signed
   * `Int` that is negative, since the alpha's top bit is set.
   */
  lemma {:induction false} RgbColor(hex: string)
    requires IsRgb(hex)
    ensures ColorOf(hex).Some?
    ensures ColorOf(hex).value == HexValue(hex[1..]) + ALPHA - WORD
    ensures ColorOf(hex).value < 0
    ensures (ColorOf(hex).value + WORD) / 0x100_0000 == 0xE6
    ensures ParseHex(RemovePrefix(hex, "#")) == Some((ColorOf(hex).value + WORD) % 0x100_0000)
  {
    var digits := hex[1..];
    assert StartsWith(hex, "#") && RemovePrefix(hex, "#") == digits;
    HexValueBound(digits);
    assert Pow16(6) == 0x100_0000;
    OrAlphaAdds(HexValue(digits));
  }

  lemma PaletteTexts0()
    ensures forall i :: 0 <= i < 5 ==> IsRgb(HexColors[i])
  {
    assert IsRgb(HexColors[0]);
    assert IsRgb(HexColors[1]);
    assert IsRgb(HexColors[2]);
    assert IsRgb(HexColors[3]);
    assert IsRgb(HexColors[4]);
  }

  lemma PaletteTexts1()
    ensures forall i :: 5 <= i < 10 ==> IsRgb(HexColors[i])
  {
    assert IsRgb(HexColors[5]);
    assert IsRgb(HexColors[6]);
    assert IsRgb(HexColors[7]);
    assert IsRgb(HexColors[8]);
    assert IsRgb(HexColors[9]);
  }

  lemma PaletteTexts2()
    ensures forall i :: 10 <= i < 15 ==> IsRgb(HexColors[i])
  {
    assert IsRgb(HexColors[10]);
    assert IsRgb(HexColors[11]);
    assert IsRgb(HexColors[12]);
    assert IsRgb(HexColors[13]);
    assert IsRgb(HexColors[14]);
  }

  lemma PaletteTexts3()
    ensures forall i :: 15 <= i < 20 ==> IsRgb(HexColors[i])
  {
    assert IsRgb(HexColors[15]);
    assert IsRgb(HexColors[16]);
    assert IsRgb(HexColors[17]);
    assert IsRgb(HexColors[18]);
    assert IsRgb(HexColors[19]);
  }

  /** Every palette text is a `#` and six hex digits. */
  lemma PaletteTexts()
    ensures |HexColors| == 20
    ensures forall i :: 0 <= i < 20 ==> IsRgb(HexColors[i])
  {
    PaletteTexts0();
    PaletteTexts1();
    PaletteTexts2();
    PaletteTexts3();
  }

  /** RGB texts give colours with alpha 0xE6 over their RGB value, none of them transparent. */
  lemma RgbColors(hexes: seq<string>)
    requires forall i :: 0 <= i < |hexes| ==> IsRgb(hexes[i])
    ensures ColorsOf(hexes).Some?
    ensures var colors := ColorsOf(hexes).value;
      forall i :: 0 <= i < |hexes| ==>
        && colors[i] < 0 && colors[i] != Transparent
        && (colors[i] + WORD) / 0x100_0000 == 0xE6
        && ParseHex(RemovePrefix(hexes[i], "#")) == Some((colors[i] + WORD) % 0x100_0000)
  {
    forall i | 0 <= i < |hexes|
      ensures ColorOf(hexes[i]).Some?
      ensures var c := ColorOf(hexes[i]).value;
        && c < 0 && (c + WORD) / 0x100_0000 == 0xE6
        && ParseHex(RemovePrefix(hexes[i], "#")) == Some((c + WORD) % 0x100_0000)
    {
      RgbColor(hexes[i]);
    }
  }

  /**
   * The palette has twenty colours; each is 90% opaque (alpha 0xE6) over the RGB value
   * its text parses to, so none is transparent.
   */
  lemma PaletteColors()
    ensures ColorsOf(HexColors).Some?
    ensures var colors := ColorsOf(HexColors).value;
      && |colors| == 20
      && forall i :: 0 <= i < 20 ==>
        && colors[i] != Transparent
        && (colors[i] + WORD) / 0x100_0000 == 0xE6
        && ParseHex(RemovePrefix(HexColors[i], "#")) == Some((colors[i] + WORD) % 0x100_0000)
  {
    PaletteTexts();
    RgbColors(HexColors);
  }

  /** Kotlin's `%`: the remainder takes the sign of the dividend. */
  function KotlinRem(a: int, n: int): (r: int)
    requires n > 0
    ensures a >= 0 ==> r == a % n
    ensures a < 0 ==> r == -((-a) % n)
    ensures -n < r < n
  {
    if a >= 0 then a % n else -((-a) % n)
  }

  /** `colors[index]` out of bounds. */
  datatype IndexError = IndexOutOfBounds(index: int)

  /** `idToColor`: transparent for an empty palette, otherwise the entry at `id % size`. */
  function IdToColor(colors: seq<Color>, id: int): (r: Result<Color, IndexError>)
    ensures colors == [] ==> r == Ok(Transparent)
    ensures colors != [] && KotlinRem(id, |colors|) >= 0 ==> r == Ok(colors[KotlinRem(id, |colors|)])
    ensures colors != [] && KotlinRem(id, |colors|) < 0 ==> r == Err(IndexOutOfBounds(KotlinRem(id, |colors|)))
  {
    if colors == [] then Ok(Transparent)
    else
      var index := KotlinRem(id, |colors|);
      if 0 <= index then Ok(colors[index]) else Err(IndexOutOfBounds(index))
  }

  /** A non-negative id always gets a palette colour, the one at `id mod size`. */
  lemma NonNegativeIdColor(colors: seq<Color>, id: int)
    requires colors != [] && id >= 0
    ensures IdToColor(colors, id) == Ok(colors[id % |colors|])
  {
  }

  /** Non-negative ids congruent modulo the palette size get the same colour. */
  lemma CongruentIdsShareColor(colors: seq<Color>, a: int, b: int)
    requires a >= 0 && b >= 0
    requires colors == [] || a % |colors| == b % |colors|
    ensures IdToColor(colors, a) == IdToColor(colors, b)
  {
  }

  /**
   * A negative id fails with an out-of-bounds index unless it is a multiple of the
   * palette size, which gets the first colour.
   */
  lemma NegativeIdColor(colors: seq<Color>, id: int)
    requires colors != [] && id < 0
    ensures (-id) % |colors| == 0 ==> IdToColor(colors, id) == Ok(colors[0])
    ensures (-id) % |colors| != 0 ==> IdToColor(colors, id).Err?
  {
  }

  /** With the real palette, transparency comes only from an empty palette. */
  lemma TransparentOnlyWhenEmpty(colors: seq<Color>, id: int)
    requires forall i :: 0 <= i < |colors| ==> colors[i] != Transparent
    ensures IdToColor(colors, id) == Ok(Transparent) <==> colors == []
  {
  }
}
