/** The LSP sort key of a completion item: eight hex digits that order like the score, then the name. */
module SortKeys {
  import opened ByteText
  import opened Powers

  const TOP_BIT := 0x8000_0000
  const WORD := 0x1_0000_0000
  const INFINITY := 0x7F80_0000

  // ---------------------------------------------------------------- IEEE 754 binary32

  /** The bits of a float: sign, eight of exponent, twenty-three of fraction. */
  type Bits = u: int | 0 <= u < WORD

  predicate Negative(u: Bits) { u >= TOP_BIT }

  function Magnitude(u: Bits): (m: nat)
    ensures m < TOP_BIT && u == m + if Negative(u) then TOP_BIT else 0
  {
    if Negative(u) then u - TOP_BIT else u
  }

  predicate IsNaN(u: Bits) { Magnitude(u) > INFINITY }

  /** The number with these exponent and fraction fields, in units of 2^-149. Infinity stands for 2^277 of them. */
  function Units(m: nat): nat
    requires m < TOP_BIT
  {
    var exponent, fraction := m / 0x80_0000, m % 0x80_0000;
    if exponent == 0 then fraction else (0x80_0000 + fraction) * Pow2(exponent - 1)
  }

  /** The value as an exact multiple of the smallest positive float; both zeros are 0. */
  function Value(u: Bits): int {
    if Negative(u) then 0 - Units(Magnitude(u)) else Units(Magnitude(u))
  }

  // ---------------------------------------------------------------- encodeFloat

  function EncodeFloat(u: Bits): Bits {
    if Negative(u) then (0 - u) % WORD else u + TOP_BIT
  }

  lemma ScaledLess(f: nat, g: nat, p: nat)
    requires f < g && p > 0
    ensures f * p < g * p
  {
  }

  /** Magnitudes order as integers: a larger exponent field outweighs any fraction. */
  lemma UnitsGrow(a: nat, b: nat)
    requires a < b < TOP_BIT
    ensures Units(a) < Units(b)
  {
    var e, f, g, h := a / 0x80_0000, a % 0x80_0000, b / 0x80_0000, b % 0x80_0000;
    if e == g {
      assert f < h;
      if e > 0 { ScaledLess(0x80_0000 + f, 0x80_0000 + h, Pow2(e - 1)); }
    } else if e == 0 {
      assert Units(a) < 0x80_0000;
      AtLeast(0x80_0000 + h, Pow2(g - 1));
    } else {
      ScaledLess(0x80_0000 + f, 0x100_0000, Pow2(e - 1));
      assert 0x100_0000 * Pow2(e - 1) == 0x80_0000 * Pow2(e);
      Pow2Grows(e, g - 1);
      ProductsGrow(0x80_0000, 0x80_0000 + h, Pow2(e), Pow2(g - 1));
    }
  }

  lemma AtLeast(f: nat, p: nat)
    requires p > 0
    ensures f * p >= f
  {
  }

  lemma ProductsGrow(a: nat, b: nat, p: nat, q: nat)
    requires a <= b && p <= q
    ensures a * p <= b * q
  {
  }

  lemma UnitsOrder(a: nat, b: nat)
    requires a < TOP_BIT && b < TOP_BIT
    ensures Units(a) < Units(b) <==> a < b
    ensures Units(a) == 0 <==> a == 0
  {
    if a < b { UnitsGrow(a, b); } else if b < a { UnitsGrow(b, a); }
    if a > 0 { UnitsGrow(0, a); }
  }

  /** The key orders floats as numbers, and the two zeros together. */
  lemma EncodeFloatOrders(a: Bits, b: Bits)
    requires !IsNaN(a) && !IsNaN(b)
    ensures EncodeFloat(a) < EncodeFloat(b) <==> Value(a) < Value(b)
  {
    hide Units;
    UnitsOrder(Magnitude(a), Magnitude(b));
    UnitsOrder(Magnitude(b), Magnitude(a));
    NegatedKey(a);
    NegatedKey(b);
  }

  lemma NegatedKey(u: Bits)
    ensures EncodeFloat(u) == if Negative(u) then TOP_BIT - Magnitude(u) else TOP_BIT + Magnitude(u)
  {
  }

  const QUIET_NAN := 0x7FC0_0000

  /** The comparison a < b of IEEE 754: false whenever a NaN takes part. */
  predicate FloatLess(a: Bits, b: Bits) {
    !IsNaN(a) && !IsNaN(b) && Value(a) < Value(b)
  }

  /** What is written above encodeFloat: a < b <==> encodeFloat(a) < encodeFloat(b). */
  predicate OrdersAsPromised(a: Bits, b: Bits) {
    FloatLess(a, b) <==> EncodeFloat(a) < EncodeFloat(b)
  }

  /** No NaN is above infinity, but the key of this one is. */
  lemma NaNSortsAboveInfinity()
    ensures IsNaN(QUIET_NAN) && !OrdersAsPromised(INFINITY, QUIET_NAN)
  {
  }

  /** Against all numbers, on either side, the promise holds for b exactly if b is no NaN. */
  lemma PromiseHoldsIffNotNaN(b: Bits)
    ensures (forall a: Bits :: !IsNaN(a) ==> OrdersAsPromised(a, b) && OrdersAsPromised(b, a)) <==> !IsNaN(b)
  {
    if IsNaN(b) {
      NegatedKey(b);
      if Negative(b) {
        assert !OrdersAsPromised(b, TOP_BIT + INFINITY);
      } else {
        assert !OrdersAsPromised(INFINITY, b);
      }
    } else {
      forall a: Bits | !IsNaN(a) ensures OrdersAsPromised(a, b) && OrdersAsPromised(b, a) {
        EncodeFloatOrders(a, b);
        EncodeFloatOrders(b, a);
      }
    }
  }

  // ---------------------------------------------------------------- sortText

  /** Flips the sign bit. */
  function Negated(u: Bits): Bits {
    if Negative(u) then u - TOP_BIT else u + TOP_BIT
  }

  /** The last `width` hexadecimal digits, the most significant first. */
  function Hex(v: nat, width: nat): Bytes {
    if width == 0 then [] else Hex(v / 16, width - 1) + [HexDigit(v % 16)]
  }

  function Power16(k: nat): nat { if k == 0 then 1 else 16 * Power16(k - 1) }

  function SortText(score: Bits, name: Bytes): Bytes {
    Hex(EncodeFloat(Negated(score)), 8) + name
  }

  lemma LongerTextsCompare(a: Byte, s: Bytes, b: Byte, t: Bytes)
    ensures TextLess([a] + s, [b] + t) <==> a < b || (a == b && TextLess(s, t))
  {
    assert ([a] + s)[1..] == s && ([b] + t)[1..] == t;
  }

  /** Digits of equal width compare as the numbers do, and leave ties to what follows. */
  lemma {:induction false} HexOrders(v: nat, w: nat, width: nat, s: Bytes, t: Bytes)
    requires v < Power16(width) && w < Power16(width)
    ensures TextLess(Hex(v, width) + s, Hex(w, width) + t) <==> v < w || (v == w && TextLess(s, t))
  {
    if width == 0 {
      assert [] + s == s && [] + t == t;
    } else {
      var a, b := HexDigit(v % 16), HexDigit(w % 16);
      HexOrders(v / 16, w / 16, width - 1, [a] + s, [b] + t);
      LongerTextsCompare(a, s, b, t);
      assert Hex(v, width) + s == Hex(v / 16, width - 1) + ([a] + s);
      assert Hex(w, width) + t == Hex(w / 16, width - 1) + ([b] + t);
      DigitsOrder(v % 16, w % 16);
    }
  }

  lemma DigitsOrder(a: nat, b: nat)
    requires a < 16 && b < 16
    ensures HexDigit(a) < HexDigit(b) <==> a < b
  {
  }

  lemma EightDigitsAreEnough()
    ensures Power16(8) == WORD
  {
    assert Power16(4) == 0x1_0000;
  }

  lemma NegatedValue(u: Bits)
    ensures Value(Negated(u)) == 0 - Value(u) && (IsNaN(Negated(u)) <==> IsNaN(u))
  {
    assert Magnitude(Negated(u)) == Magnitude(u);
  }

  /** Higher scores sort first, and earlier names among equal scores. */
  predicate Better(score: Bits, name: Bytes, otherScore: Bits, otherName: Bytes) {
    if Value(score) != Value(otherScore) then Value(score) > Value(otherScore) else TextLess(name, otherName)
  }

  /** Byte-wise, sort keys order as the ranking does. */
  lemma SortTextRanks(score: Bits, name: Bytes, otherScore: Bits, otherName: Bytes)
    requires !IsNaN(score) && !IsNaN(otherScore)
    ensures TextLess(SortText(score, name), SortText(otherScore, otherName)) <==> Better(score, name, otherScore, otherName)
  {
    hide Hex, EncodeFloat, Value, TextLess, Negated, IsNaN, Power16;
    var a, b := Negated(score), Negated(otherScore);
    EightDigitsAreEnough();
    HexOrders(EncodeFloat(a), EncodeFloat(b), 8, name, otherName);
    NegatedValue(score);
    NegatedValue(otherScore);
    EncodeFloatOrders(a, b);
    EncodeFloatOrders(b, a);
  }

  // ---------------------------------------------------------------- what a sort key looks like

  /** Reads hexadecimal digits 0 to 9 and a to f; negative for anything else. */
  function ReadHex(text: Bytes): int {
    if text == [] then 0
    else
      var c, before := text[|text| - 1], ReadHex(text[..|text| - 1]);
      if before < 0 then -1
      else if 48 <= c <= 57 then 16 * before + (c - 48)
      else if 97 <= c <= 102 then 16 * before + (c - 87)
      else -1
  }

  lemma {:induction false} HexReadsBack(v: nat, width: nat)
    requires v < Power16(width)
    ensures |Hex(v, width)| == width && ReadHex(Hex(v, width)) == v
  {
    if width > 0 {
      HexReadsBack(v / 16, width - 1);
      var text := Hex(v, width);
      assert text[..width - 1] == Hex(v / 16, width - 1);
    }
  }

  /** A sort key is eight lower-case hexadecimal digits and the name; the digits are the bits of a
      negative score, and 2^31 less the bits of a positive one. */
  lemma SortTextReads(score: Bits, name: Bytes)
    ensures var text := SortText(score, name);
      && |text| == 8 + |name| && text[8..] == name
      && ReadHex(text[..8]) == if score >= 0x8000_0000 then score else 0x8000_0000 - score
  {
    hide Hex, ReadHex, Power16;
    EightDigitsAreEnough();
    var key := EncodeFloat(Negated(score));
    HexReadsBack(key, 8);
    assert SortText(score, name)[..8] == Hex(key, 8);
  }

  /** The comment's example: 0.5 and foo make 41000000foo. */
  lemma SortTextOfHalf()
    ensures SortText(0x3F00_0000, [102, 111, 111]) == [52, 49, 48, 48, 48, 48, 48, 48, 102, 111, 111]
  {
    hide Hex;
    FrontOfHalf();
    OneMoreDigit(0x4100, 4, 0);
    OneMoreDigit(0x4_1000, 5, 0);
    OneMoreDigit(0x41_0000, 6, 0);
    OneMoreDigit(0x410_0000, 7, 0);
    assert EncodeFloat(Negated(0x3F00_0000)) == 0x4100_0000;
  }

  lemma FrontOfHalf()
    ensures Hex(0x4100, 4) == [52, 49, 48, 48]
  {
    hide Hex;
    OneMoreDigit(0, 0, 4);
    OneMoreDigit(4, 1, 1);
    OneMoreDigit(0x41, 2, 0);
    OneMoreDigit(0x410, 3, 0);
    NoDigits();
  }

  lemma NoDigits()
    ensures Hex(0, 0) == []
  {
  }

  lemma OneMoreDigit(v: nat, width: nat, d: nat)
    requires d < 16
    ensures Hex(16 * v + d, width + 1) == Hex(v, width) + [HexDigit(d)]
  {
  }

  /** Some floats: the smallest, one half, 1, 1.5 and -2, in units of 2^-149. */
  lemma KnownFloats()
    ensures Value(0x0000_0001) == 1
    ensures Value(0x3F00_0000) == Pow2(148) && Value(0x3F80_0000) == Pow2(149) && 2 * Value(0x3FC0_0000) == 3 * Pow2(149)
    ensures Value(0xC000_0000) == 0 - Pow2(150)
  {
    hide Pow2;
    TwentyThreeBits();
    Pow2Sum(23, 125);
    Pow2Sum(23, 126);
    Pow2Sum(23, 127);
  }

  lemma TwentyThreeBits()
    ensures Pow2(23) == 0x80_0000
  {
    assert Pow2(5) == 32;
    Pow2Sum(5, 5);
    Pow2Sum(10, 10);
    Pow2Sum(20, 3);
    assert Pow2(3) == 8;
  }
}
