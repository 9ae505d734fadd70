/** IEEE 754 binary32 arithmetic as the score uses it: ScoreScale is float{1} / (3 * PatN), and match() returns
    ScoreScale * score. All values are exact integers over a power of two. */
module FuzzyFloat {
  import opened Powers

  /** units * 2^-exponent. */
  datatype Float = Float(units: nat, exponent: nat)

  function RealValue(f: Float): real {
    f.units as real / Pow2(f.exponent) as real
  }

  /** The nearest integer to a / b, ties to even. */
  function RoundDiv(a: nat, b: nat): nat
    requires b > 0
  {
    var q, r := a / b, a % b;
    if 2 * r < b || (2 * r == b && q % 2 == 0) then q else q + 1
  }

  /** v rounded to the 24 significant bits a float keeps. */
  function RoundBits(v: nat): nat {
    if v == 0 || Log2(v) <= 23 then v
    else
      var ulp := Pow2(Log2(v) - 23);
      RoundDiv(v, ulp) * ulp
  }

  /** For x between powers of two, 1 / x lies below 2^-Log2(x), where the spacing of floats is 2^-(24 + Log2(x)). */
  function Mantissa(x: nat): nat
    requires x > 0
  {
    RoundDiv(Pow2(24 + Log2(x)), x)
  }

  /** float{1} / x. */
  function Reciprocal(x: nat): Float
    requires x > 0
  {
    Float(Mantissa(x), 24 + Log2(x))
  }

  /** f * m, for an integer that is a float itself. */
  function Times(f: Float, m: nat): Float {
    Float(RoundBits(f.units * m), f.exponent)
  }

  // ---------------------------------------------------------------- rounding

  lemma DivisionRest(a: nat, b: nat)
    requires b > 0
    ensures a == (a / b) * b + a % b
  {
  }

  lemma NextMultiple(q: nat, b: nat)
    ensures (q + 1) * b == q * b + b
  {
  }

  lemma MultipleIsLarge(k: int, b: nat)
    requires k != 0
    ensures k * b >= b || k * b <= 0 - b
  {
    if k > 0 {
      Scale(1, k, b);
    } else {
      Scale(1, -k, b);
      assert -k * b == -(k * b);
    }
  }

  lemma QuotientOf(a: nat, b: nat, q: nat, r: nat)
    requires a == q * b + r && r < b
    ensures a / b == q && a % b == r
  {
    DivisionRest(a, b);
    assert (a / b - q) * b == r - a % b;
    if a / b != q {
      MultipleIsLarge(a / b - q, b);
    }
  }

  /** Rounding one + d to a multiple of ulp, for a small deviation d from an even multiple. */
  lemma RoundsBack(one: nat, d: int, ulp: nat, n: nat)
    requires ulp > 0 && n > 0 && n % 2 == 0 && one == n * ulp && one + d >= 0 && 0 - ulp < d < ulp
    ensures RoundDiv(one + d, ulp) * ulp == one <==> 0 - ulp <= 2 * d <= ulp
  {
    if d >= 0 {
      QuotientOf(one + d, ulp, n, d);
      assert RoundDiv(one + d, ulp) == if 2 * d <= ulp then n else n + 1;
    } else {
      NextMultiple(n - 1, ulp);
      QuotientOf(one + d, ulp, n - 1, ulp + d);
      assert RoundDiv(one + d, ulp) == if 0 - ulp <= 2 * d then n else n - 1;
    }
    NextMultiple(n, ulp);
    NextMultiple(n - 1, ulp);
  }

  lemma RoundDivError(a: nat, b: nat)
    requires b > 0
    ensures var d := RoundDiv(a, b) * b - a;
            0 - b <= 2 * d <= b && (d < 0 ==> d == 0 - a % b)
  {
    var q, r := a / b, a % b;
    DivisionRest(a, b);
    NextMultiple(q, b);
    if RoundDiv(a, b) == q {
      assert RoundDiv(a, b) * b - a == 0 - r;
    } else {
      assert RoundDiv(a, b) * b - a == b - r;
    }
  }

  /** No integer multiple is nearer. */
  lemma RoundDivIsNearest(a: nat, b: nat, k: nat)
    requires b > 0
    ensures var d, e := RoundDiv(a, b) * b - a, k * b - a;
            (if d < 0 then 0 - d else d) <= (if e < 0 then 0 - e else e)
  {
    var q := a / b;
    DivisionRest(a, b);
    NextMultiple(q, b);
    if k <= q {
      Scale(k, q, b);
    } else {
      Scale(q + 1, k, b);
    }
  }

  /** The error of rounding is at most half the spacing of floats around v, which grows with v. */
  lemma RoundBitsError(v: nat, k: nat)
    requires v < Pow2(25 + k)
    ensures 0 - Pow2(k + 1) <= 2 * (RoundBits(v) - v) <= Pow2(k + 1)
  {
    if v > 0 && Log2(v) > 23 {
      Log2Bounds(v);
      if Log2(v) > 24 + k {
        Pow2Grows(25 + k, Log2(v));
        assert false;
      }
      var ulp := Pow2(Log2(v) - 23);
      RoundDivError(v, ulp);
      Pow2Grows(Log2(v) - 23, k + 1);
    }
  }

  // ---------------------------------------------------------------- a perfect score

  /** How far (1 / x) * x is from 1 before its own rounding, in units of 2^-(24 + Log2(x)). */
  function Deviation(x: nat): int
    requires x > 0
  {
    Mantissa(x) * x - Pow2(24 + Log2(x))
  }

  /** A perfect match of a pattern with n characters returns exactly 1.0f. */
  predicate PerfectIsOne(n: nat)
    requires n > 0
  {
    RealValue(Times(Reciprocal(3 * n), 3 * n)) == 1.0
  }

  lemma DeviationIsSmall(x: nat)
    requires x > 0
    ensures 0 - x <= 2 * Deviation(x) <= x
    ensures Deviation(x) < 0 ==> Deviation(x) == 0 - Pow2(24 + Log2(x)) % x
  {
    RoundDivError(Pow2(24 + Log2(x)), x);
  }

  /** Both spacings around 1 divide it, an even number of times. */
  lemma OneInUlps(k: nat)
    ensures Pow2(24 + k) == Pow2(24) * Pow2(k) == Pow2(23) * Pow2(k + 1)
    ensures Pow2(23) % 2 == 0 && Pow2(24) % 2 == 0
    ensures Pow2(k + 1) == 2 * Pow2(k) && Pow2(25 + k) == 2 * Pow2(24 + k) && Pow2(24 + k) == 2 * Pow2(23 + k)
    ensures Pow2(k) <= Pow2(23 + k)
  {
    EvenPower(23);
    EvenPower(24);
    Pow2Sum(24, k);
    Pow2Sum(23, k + 1);
    Pow2Grows(k, 23 + k);
    DoubledPower(k);
    DoubledPower(23 + k);
    DoubledPower(24 + k);
    hide Pow2;
  }

  lemma DoubledPower(n: nat)
    ensures Pow2(n + 1) == 2 * Pow2(n)
  {
  }

  lemma EvenPower(n: nat)
    requires n > 0
    ensures Pow2(n) % 2 == 0
  {
  }

  /** Below 1 floats are spaced 2^k units, from 1 up 2^(k + 1). */
  lemma SpacingAroundOne(v: nat, k: nat)
    requires Pow2(24 + k) - Pow2(k) <= v < Pow2(24 + k) + Pow2(k)
    ensures v >= Pow2(24 + k) ==> RoundBits(v) == RoundDiv(v, Pow2(k + 1)) * Pow2(k + 1)
    ensures v < Pow2(24 + k) ==> RoundBits(v) == RoundDiv(v, Pow2(k)) * Pow2(k)
  {
    hide Pow2, Log2, RoundDiv;
    OneInUlps(k);
    if v >= Pow2(24 + k) {
      Log2Is(v, 24 + k);
    } else {
      Log2Is(v, 23 + k);
      if k == 0 { RoundingByOne(v); }
    }
  }

  lemma RoundingByOne(v: nat)
    ensures Pow2(0) == 1 && RoundDiv(v, 1) * 1 == v
  {
  }

  lemma RoundBitsOfDeviation(x: nat, k: nat, d: int)
    requires x > 0 && k == Log2(x) && d == Deviation(x)
    requires Pow2(k) <= x < 2 * Pow2(k) && 0 - x <= 2 * d <= x
    ensures RoundBits(Mantissa(x) * x) == Pow2(24 + k) <==> 0 - Pow2(k) <= 2 * d
  {
    hide Pow2, Log2, Mantissa, RoundDiv, RoundBits;
    var one := Pow2(24 + k);
    assert Mantissa(x) * x == one + d;
    OneInUlps(k);
    SpacingAroundOne(one + d, k);
    if d >= 0 {
      RoundsBack(one, d, Pow2(k + 1), Pow2(23));
    } else {
      RoundsBack(one, d, Pow2(k), Pow2(24));
    }
  }

  lemma QuotientIsOne(a: nat, b: nat)
    requires b > 0
    ensures a as real / b as real == 1.0 <==> a == b
    ensures 0.0 <= a as real / b as real && (a <= b ==> a as real / b as real <= 1.0)
  {
  }

  /** A perfect score is exactly 1.0f unless the reciprocal was rounded down by more than half the
      spacing of the floats just below 1. */
  lemma PerfectScoreIsOneExactly(n: nat)
    requires n > 0
    ensures var x := 3 * n;
            var roundedDown := Mantissa(x) * x < Pow2(24 + Log2(x));
            PerfectIsOne(n) <==> !(roundedDown && Pow2(Log2(x)) < 2 * (Pow2(24 + Log2(x)) % x))
  {
    hide RoundBits, Mantissa, Log2, Pow2, RoundDiv;
    var x := 3 * n;
    Log2Bounds(x);
    DeviationIsSmall(x);
    RoundBitsOfDeviation(x, Log2(x), Deviation(x));
    QuotientIsOne(RoundBits(Mantissa(x) * x), Pow2(24 + Log2(x)));
  }

  // ---------------------------------------------------------------- the scores of one pattern

  lemma WholePartIsLarge(q: nat, r: nat, b: nat, n: nat)
    requires r < b && n * b <= q * b + r
    ensures q >= n
  {
    if q < n {
      NextMultiple(q, b);
      Scale(q + 1, n, b);
    }
  }

  lemma QuotientIsLarge(a: nat, b: nat, n: nat)
    requires b > 0 && n * b <= a
    ensures RoundDiv(a, b) >= n
  {
    DivisionRest(a, b);
    WholePartIsLarge(a / b, a % b, b, n);
  }

  lemma MantissaIsLarge(x: nat)
    requires x > 0
    ensures Mantissa(x) >= Pow2(23)
  {
    hide Pow2, Log2, RoundDiv;
    var k := Log2(x);
    Log2Bounds(x);
    OneInUlps(k);
    Scale(x, Pow2(k + 1), Pow2(23));
    QuotientIsLarge(Pow2(24 + k), x, Pow2(23));
  }

  lemma LogOfLength(n: nat)
    requires 0 < n <= 63
    ensures Log2(3 * n) <= 7
  {
    SmallPowers();
    Log2Bounds(3 * n);
    if Log2(3 * n) > 7 { Pow2Grows(8, Log2(3 * n)); }
  }

  lemma ProductIsSmall(x: nat, m: nat)
    requires x > 0 && m <= x
    ensures Mantissa(x) * m <= Mantissa(x) * x < Pow2(25 + Log2(x))
  {
    hide Pow2, Log2, Mantissa;
    Log2Bounds(x);
    DeviationIsSmall(x);
    OneInUlps(Log2(x));
    Scale(m, x, Mantissa(x));
  }

  /** Rounding never merges or reorders the scores of one pattern. */
  lemma ScoresAreOrdered(n: nat, a: nat, b: nat)
    requires 0 < n <= 63 && a < b <= 3 * n
    ensures Times(Reciprocal(3 * n), a).units < Times(Reciprocal(3 * n), b).units
  {
    hide RoundBits, Mantissa, Log2, Pow2;
    var x, m, k := 3 * n, Mantissa(3 * n), Log2(3 * n);
    ProductIsSmall(x, a);
    ProductIsSmall(x, b);
    RoundBitsError(m * a, k);
    RoundBitsError(m * b, k);
    Scale(a + 1, b, m);
    NextMultiple(a, m);
    MantissaIsLarge(x);
    LogOfLength(n);
    Pow2Grows(k + 1, 8);
    LargePower();
  }

  lemma LargePower()
    ensures 2 * Pow2(8) < Pow2(23)
  {
    SmallPowers();
    assert Pow2(8) == 256;
    Pow2Sum(7, 16);
    Pow2Sum(8, 8);
  }

  lemma RoundDivAtMost(v: nat, u: nat, n: nat)
    requires u > 0 && v < n * u
    ensures RoundDiv(v, u) <= n
  {
    DivisionRest(v, u);
    if v / u >= n { Scale(n, v / u, u); }
  }

  /** Scores lie in [0, 1], and only a perfect match of a length that allows it reaches 1. */
  lemma ScoreRange(n: nat, m: nat)
    requires 0 < n <= 63 && m <= 3 * n
    ensures 0.0 <= RealValue(Times(Reciprocal(3 * n), m)) <= 1.0
    ensures RealValue(Times(Reciprocal(3 * n), m)) == 1.0 <==> m == 3 * n && PerfectIsOne(n)
  {
    hide RoundBits, Mantissa, Log2, Pow2;
    var x, k := 3 * n, Log2(3 * n);
    PerfectIsAtMostOne(x);
    QuotientIsOne(RoundBits(Mantissa(x) * m), Pow2(24 + k));
    QuotientIsOne(RoundBits(Mantissa(x) * x), Pow2(24 + k));
    if m < x { ScoresAreOrdered(n, m, x); }
  }

  lemma PerfectIsAtMostOne(x: nat)
    requires x > 0
    ensures RoundBits(Mantissa(x) * x) <= Pow2(24 + Log2(x))
  {
    hide Pow2, Log2, Mantissa, RoundBits, RoundDiv;
    var k, d := Log2(x), Deviation(x);
    Log2Bounds(x);
    DeviationIsSmall(x);
    RoundBitsOfDeviation(x, k, d);
    if d < 0 {
      OneInUlps(k);
      SpacingAroundOne(Mantissa(x) * x, k);
      RoundDivAtMost(Mantissa(x) * x, Pow2(k), Pow2(24));
      Scale(RoundDiv(Mantissa(x) * x, Pow2(k)), Pow2(24), Pow2(k));
    }
  }

  // ---------------------------------------------------------------- which lengths are perfect

  /** The condition for x, with the power of two below x and the units in 1 given. */
  predicate FallsShort(x: nat, below: nat, one: nat)
    requires x > 0
  {
    RoundDiv(one, x) * x < one && below < 2 * (one % x)
  }

  predicate Imperfect(n: nat) { n in {41, 47, 53, 55, 63} }

  /** The lengths from n up to the last of those with `below` as the power of two under 3 * n. */
  predicate LengthsAgree(n: nat, last: nat, below: nat, one: nat)
    requires n > 0
    decreases last + 1 - n
  {
    n > last || ((FallsShort(3 * n, below, one) <==> Imperfect(n)) && LengthsAgree(n + 1, last, below, one))
  }

  lemma {:induction false} LengthAgrees(n: nat, m: nat, last: nat, below: nat, one: nat)
    requires 0 < n <= m <= last && LengthsAgree(n, last, below, one)
    ensures FallsShort(3 * m, below, one) <==> Imperfect(m)
    decreases m - n
  {
    if n < m { LengthAgrees(n + 1, m, last, below, one); }
  }

  lemma SmallPowers()
    ensures Pow2(1) == 2 && Pow2(2) == 4 && Pow2(3) == 8 && Pow2(4) == 16 && Pow2(5) == 32 && Pow2(6) == 64 && Pow2(7) == 128
    ensures Pow2(24) == 0x100_0000
  {
    Pow2Sum(3, 3);
    Pow2Sum(6, 6);
    Pow2Sum(12, 12);
  }

  lemma PerfectInOctave(n: nat, first: nat, last: nat, k: nat)
    requires 0 < first <= n <= last && Pow2(k) <= 3 * n < 2 * Pow2(k)
    requires LengthsAgree(first, last, Pow2(k), 0x100_0000 * Pow2(k))
    ensures PerfectIsOne(n) <==> !Imperfect(n)
  {
    hide Log2, FallsShort, LengthsAgree, PerfectIsOne, Mantissa, RoundDiv, Pow2, Imperfect;
    Log2Is(3 * n, k);
    SmallPowers();
    Pow2Sum(24, k);
    PerfectScoreIsOneExactly(n);
    LengthAgrees(first, n, last, Pow2(k), 0x100_0000 * Pow2(k));
    MeansFallingShort(3 * n);
  }

  lemma MeansFallingShort(x: nat)
    requires x > 0
    ensures FallsShort(x, Pow2(Log2(x)), Pow2(24 + Log2(x)))
      <==> Mantissa(x) * x < Pow2(24 + Log2(x)) && Pow2(Log2(x)) < 2 * (Pow2(24 + Log2(x)) % x)
  {
  }

  lemma ShortLengthsAgree()
    ensures LengthsAgree(1, 1, 2, 0x200_0000) && LengthsAgree(2, 2, 4, 0x400_0000) && LengthsAgree(3, 5, 8, 0x800_0000)
    ensures LengthsAgree(6, 10, 16, 0x1000_0000)
  {
  }

  lemma MiddleLengthsAgree()
    ensures LengthsAgree(11, 21, 32, 0x2000_0000)
  {
  }

  lemma LongLengthsAgree()
    ensures LengthsAgree(22, 32, 64, 0x4000_0000)
  {
  }

  lemma LongerLengthsAgree()
    ensures LengthsAgree(33, 42, 64, 0x4000_0000)
  {
  }

  lemma LongestLengthsAgree()
    ensures LengthsAgree(43, 53, 128, 0x8000_0000) && LengthsAgree(54, 63, 128, 0x8000_0000)
  {
  }

  /** Of the lengths a pattern can have, exactly five miss 1 with a perfect match. */
  lemma PerfectLengths(n: nat)
    requires 0 < n <= 63
    ensures PerfectIsOne(n) <==> n !in {41, 47, 53, 55, 63}
  {
    hide PerfectIsOne, Pow2, LengthsAgree;
    SmallPowers();
    ShortLengthsAgree();
    MiddleLengthsAgree();
    LongLengthsAgree();
    LongerLengthsAgree();
    LongestLengthsAgree();
    if n == 1 {
      PerfectInOctave(n, 1, 1, 1);
    } else if n == 2 {
      PerfectInOctave(n, 2, 2, 2);
    } else if n <= 5 {
      PerfectInOctave(n, 3, 5, 3);
    } else if n <= 10 {
      PerfectInOctave(n, 6, 10, 4);
    } else if n <= 21 {
      PerfectInOctave(n, 11, 21, 5);
    } else if n <= 32 {
      PerfectInOctave(n, 22, 32, 6);
    } else if n <= 42 {
      PerfectInOctave(n, 33, 42, 6);
    } else if n <= 53 {
      PerfectInOctave(n, 43, 53, 7);
    } else {
      PerfectInOctave(n, 54, 63, 7);
    }
  }

  lemma FortyOne()
    ensures Log2(123) == 6 && RoundDiv(0x4000_0000, 123) == 8729608 && RoundDiv(8729608 * 123, 64) == 0xFF_FFFF
  {
    assert Log2(1) == 0 && Log2(3) == 1 && Log2(7) == 2 && Log2(15) == 3 && Log2(30) == 4 && Log2(61) == 5;
  }

  lemma SameQuotient(a: nat, b: nat, n: nat)
    requires b > 0 && n > 0
    ensures (a * n) as real / (b * n) as real == a as real / b as real
  {
  }

  /** A perfect match of 41 characters is the float just below 1. */
  lemma FortyOneCharactersScoreLessThanOne()
    ensures RealValue(Times(Reciprocal(123), 123)) == RealValue(Float(Pow2(24) - 1, 24)) < 1.0
  {
    hide Pow2, Log2, RoundBits, RoundDiv;
    FortyOne();
    SmallPowers();
    Pow2Sum(24, 6);
    SpacingAroundOne(8729608 * 123, 6);
    SameQuotient(0xFF_FFFF, 0x100_0000, 64);
    QuotientIsOne(0xFF_FFFF, 0x100_0000);
  }
}
