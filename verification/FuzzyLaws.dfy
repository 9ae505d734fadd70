/** What skips and matches are worth, read off the characters themselves. */
module FuzzyLaws {
  import opened Options
  import opened ByteText
  import opened Powers
  import opened AlignmentTable
  import opened FuzzyFloat
  import opened FuzzySpec

  // ---------------------------------------------------------------- segments

  predicate UpperLetter(c: Byte) { 65 <= c <= 90 }

  /** Small letters, digits and bytes over 127. */
  predicate LowerLetter(c: Byte) { 97 <= c <= 122 || 48 <= c <= 57 || c > 127 }

  /** text[i] is the first character of a segment such as foo, Bar or the second one of HTTPRequest. */
  predicate StartsSegment(text: Bytes, i: nat)
    requires i < |text|
  {
    || (LowerLetter(text[i]) && (i == 0 || (!LowerLetter(text[i - 1]) && !UpperLetter(text[i - 1]))))
    || (UpperLetter(text[i]) && (i == 0 || !UpperLetter(text[i - 1]) || (i + 1 < |text| && LowerLetter(text[i + 1]))))
  }

  predicate InsideSegment(text: Bytes, i: nat)
    requires i < |text|
  {
    (LowerLetter(text[i]) || UpperLetter(text[i])) && !StartsSegment(text, i)
  }

  lemma NeighbourTypes(text: Bytes, i: int)
    ensures TypeAt(text, i) == LOWER <==> 0 <= i < |text| && LowerLetter(text[i])
    ensures TypeAt(text, i) == UPPER <==> 0 <= i < |text| && UpperLetter(text[i])
  {
    if 0 <= i < |text| {
      TypeMeaning(text[i]);
    }
  }

  /** The roles are those of the segments' characters. */
  lemma RolesAreSegments(text: Bytes, i: nat)
    requires i < |text|
    ensures RoleAt(text, i) == HEAD <==> StartsSegment(text, i)
    ensures RoleAt(text, i) == TAIL <==> InsideSegment(text, i)
  {
    hide TypeAt, RoleFor;
    NeighbourTypes(text, i - 1);
    NeighbourTypes(text, i);
    NeighbourTypes(text, i + 1);
    RoleMeaning(TypeAt(text, i - 1), TypeAt(text, i), TypeAt(text, i + 1));
  }

  // ---------------------------------------------------------------- skipping

  /** Skipping costs 1 at the start of a segment and nothing elsewhere; skipping right after a match
      costs 2 more, so splitting a match always costs more than skipping a segment. */
  lemma SkipLaws(pat: Bytes, word: Bytes, w: nat)
    requires w < |word|
    ensures var skip := ProblemOf(pat, word).skip;
      && skip(w, false) == (if StartsSegment(word, w) then 1 else 0)
      && skip(w, true) == skip(w, false) + 2
      && forall v: nat | v < |word| :: skip(v, false) < skip(w, true)
  {
    hide RoleAt, StartsSegment;
    forall v: nat | v < |word|
      ensures ProblemOf(pat, word).skip(v, false) == if StartsSegment(word, v) then 1 else 0
      ensures ProblemOf(pat, word).skip(v, true) == if StartsSegment(word, v) then 3 else 2
    {
      RolesAreSegments(word, v);
    }
  }

  // ---------------------------------------------------------------- matching

  /** The pattern has a capital letter, so case counts everywhere. */
  predicate HasCapital(pat: Bytes) { exists i :: 0 <= i < |pat| && UpperLetter(pat[i]) }

  /** Two characters may be paired exactly if they are equal up to the case of an ASCII letter. */
  lemma PairsIgnoreCase(pat: Bytes, word: Bytes, p: nat, w: nat)
    requires p < |pat| && w < |word|
    ensures ProblemOf(pat, word).same(p, w) <==>
      || pat[p] == word[w]
      || (UpperLetter(pat[p]) && word[w] == pat[p] + 32)
      || (UpperLetter(word[w]) && pat[p] == word[w] + 32)
  {
  }

  lemma CapitalsMakeCaseCount(pat: Bytes)
    ensures CaseSensitive(pat) <==> HasCapital(pat)
  {
    if CaseSensitive(pat) {
      var i :| 0 <= i < |pat| && Lower(pat[i]) != pat[i];
      assert UpperLetter(pat[i]);
    }
    if HasCapital(pat) {
      var i :| 0 <= i < |pat| && UpperLetter(pat[i]);
      assert Lower(pat[i]) != pat[i];
    }
  }

  /** The case agrees and counts, or both characters start a segment. */
  predicate FitsWell(pat: Bytes, word: Bytes, p: nat, w: nat)
    requires p < |pat| && w < |word|
  {
    || (pat[p] == word[w] && (HasCapital(pat) || p == w))
    || (StartsSegment(pat, p) && StartsSegment(word, w))
  }

  lemma BonusParts(pat: Bytes, word: Bytes, p: nat, w: nat, last: bool)
    requires p < |pat| && w < |word|
    ensures ProblemOf(pat, word).bonus(p, w, last) ==
      BonusFrom(p == w, p == 0, pat[p] == word[w] && (HasCapital(pat) || p == w),
                RoleAt(pat, p), RoleAt(word, w), last)
  {
    CapitalsMakeCaseCount(pat);
  }

  /** A match at the start of a segment or on punctuation is worth 1; 1 more while all of the word so
      far is matched, and 1 more if it fits well. What came before does not matter. */
  lemma BonusOutsideSegments(pat: Bytes, word: Bytes, p: nat, w: nat, last: bool)
    requires p < |pat| && w < |word| && !InsideSegment(word, w)
    ensures ProblemOf(pat, word).bonus(p, w, last) ==
      if p == w then (if FitsWell(pat, word, p, w) then 3 else 2) else (if FitsWell(pat, word, p, w) then 2 else 1)
  {
    hide RoleAt, StartsSegment, InsideSegment, HasCapital, CaseSensitive;
    BonusParts(pat, word, p, w, last);
    RolesAreSegments(pat, p);
    RolesAreSegments(word, w);
  }

  /** Inside a segment: continuing a match costs nothing, entering costs 3; a pattern character that
      starts a segment loses 1; the first pattern character loses 4, whatever came before. */
  lemma BonusInsideSegments(pat: Bytes, word: Bytes, p: nat, w: nat)
    requires p < |pat| && w < |word| && InsideSegment(word, w)
    ensures var bonus := ProblemOf(pat, word).bonus;
      var worth := (if p == w then 2 else 1) + (if FitsWell(pat, word, p, w) then 1 else 0);
      && (p > 0 && !StartsSegment(pat, p) ==> bonus(p, w, true) == worth && bonus(p, w, false) == worth - 3)
      && (p > 0 && StartsSegment(pat, p) ==> bonus(p, w, true) == worth - 1 && bonus(p, w, false) == worth - 4)
      && (p == 0 && !StartsSegment(pat, p) ==> bonus(p, w, true) == bonus(p, w, false) == worth - 4)
      && (p == 0 && StartsSegment(pat, p) ==> bonus(p, w, true) == bonus(p, w, false) == worth - 5)
  {
    hide RoleAt, StartsSegment, InsideSegment, HasCapital, CaseSensitive;
    BonusParts(pat, word, p, w, true);
    BonusParts(pat, word, p, w, false);
    RolesAreSegments(pat, p);
    RolesAreSegments(word, w);
  }

  // ---------------------------------------------------------------- from totals to floats

  lemma Expanded(m: int, x: int, c: int, d: int, e: int)
    ensures (m * c + e) * x - c * (m * x - d) == e * x + c * d
  {
    assert (m * c + e) * x == m * c * x + e * x;
    assert c * (m * x - d) == c * (m * x) - c * d;
    assert m * c * x == c * (m * x);
  }

  lemma BoundedProduct(d: int, bound: int, n: int)
    requires 0 - bound <= d <= bound && n >= 0
    ensures 0 - bound * n <= d * n <= bound * n
  {
    assert (bound - d) * n >= 0 && (bound + d) * n >= 0;
  }

  /** Both roundings together err by less than 2 * half of the float's units. */
  lemma ErrorInUnits(x: int, m: int, c: int, d: int, e: int, half: int)
    requires 0 <= c <= x < 2 * half && 0 < x
    requires 0 - x <= 2 * d <= x && 0 - half <= e <= half
    ensures 0 - 2 * half * x <= (m * c + e) * x - c * (m * x - d) <= 2 * half * x
  {
    Expanded(m, x, c, d, e);
    BoundedProduct(e, half, x);
    BoundedProduct(d, half, c);
    BoundedProduct(c, x, half);
    assert c * d == d * c && half * c == c * half && x * half == half * x;
    assert 2 * half * x == 2 * (half * x);
  }

  lemma UnitsAreNear(x: nat, c: nat)
    requires 0 < x && c <= x
    ensures var units, one, k := Times(Reciprocal(x), c).units, Pow2(24 + Log2(x)), Log2(x);
      0 - Pow2(k + 1) * x <= units * x - c * one <= Pow2(k + 1) * x
  {
    hide Pow2, Log2, RoundBits, Mantissa;
    var k, m, one := Log2(x), Mantissa(x), Pow2(24 + Log2(x));
    var units := Times(Reciprocal(x), c).units;
    Log2Bounds(x);
    DeviationIsSmall(x);
    ProductIsSmall(x, c);
    RoundBitsError(m * c, k);
    DoubledPower(k);
    var d, e := m * x - one, units - m * c;
    ErrorInUnits(x, m, c, d, e, Pow2(k));
  }

  lemma CommonDenominator(units: nat, x: nat, c: nat, one: nat)
    requires x > 0 && one > 0
    ensures (units as real / one as real - c as real / x as real) * (one as real * x as real) == (units * x - c * one) as real
  {
    var u, v := units as real / one as real, c as real / x as real;
    assert u * one as real == units as real && v * x as real == c as real;
    assert (u - v) * (one as real * x as real) == u * one as real * x as real - v * x as real * one as real;
  }

  lemma AsRealProduct(a: nat, b: nat)
    ensures (a * b) as real == a as real * b as real
  {
  }

  lemma ScaleInUnits(p: nat, x: nat, one: nat)
    requires one == p * 0x80_0000
    ensures one as real * x as real == (p * x) as real * 8388608.0
  {
    AsRealProduct(p, 0x80_0000);
    AsRealProduct(p, x);
    Commuted(p as real, x as real, 8388608.0);
  }

  lemma Commuted(a: real, b: real, c: real)
    ensures a * c * b == a * b * c
  {
  }

  lemma SignOfFactor(a: real, b: real)
    requires b > 0.0 && a * b <= 0.0
    ensures a <= 0.0
  {
  }

  lemma NearZero(error: real, q: real, scale: real, difference: real)
    requires q > 0.0 && scale == q * 8388608.0 && error * scale == difference && 0.0 - q <= difference <= q
    ensures 0.0 - 1.0 / 8388608.0 <= error <= 1.0 / 8388608.0
  {
    var small := 1.0 / 8388608.0;
    assert small * scale == q;
    assert (error - small) * scale == difference - q;
    SignOfFactor(error - small, scale);
    assert (0.0 - small - error) * scale == 0.0 - q - difference;
    SignOfFactor(0.0 - small - error, scale);
  }

  lemma RatioIsNear(units: nat, x: nat, c: nat, p: nat, one: nat)
    requires x > 0 && p > 0 && one == p * 0x80_0000
    requires 0 - p * x <= units * x - c * one <= p * x
    ensures var error := units as real / one as real - c as real / x as real;
      0.0 - 1.0 / 8388608.0 <= error <= 1.0 / 8388608.0
  {
    CommonDenominator(units, x, c, one);
    ScaleInUnits(p, x, one);
    Scale(1, p, x);
    NearZero(units as real / one as real - c as real / x as real, (p * x) as real, one as real * x as real,
             (units * x - c * one) as real);
  }

  /** The returned float is, to within 2^-23, the total out of 3 for each pattern character; totals
      below 0 count as 0 and totals above that maximum as the maximum. */
  lemma ScoreIsNearlyTheRatio(n: nat, best: int)
    requires n > 0
    ensures var total := if best < 0 then 0 else if best > 3 * n then 3 * n else best;
      var error := Scaled(n, best) - total as real / (3 * n) as real;
      0.0 - 1.0 / 8388608.0 <= error <= 1.0 / 8388608.0
  {
    hide Pow2, Log2, RoundBits, Mantissa;
    var x, c := 3 * n, Clamped(n, best);
    UnitsAreNear(x, c);
    Pow2Sum(Log2(x) + 1, 23);
    TwentyThree();
    RatioIsNear(Times(Reciprocal(x), c).units, x, c, Pow2(Log2(x) + 1), Pow2(24 + Log2(x)));
  }

  lemma TwentyThree()
    ensures Pow2(23) == 0x80_0000
  {
    SmallPowers();
    Pow2Sum(7, 16);
    Pow2Sum(8, 8);
    DoubledPower(7);
  }

  // ---------------------------------------------------------------- an example

  lemma EntriesOfBInAUnderscoreB(x: Problem)
    requires x == ProblemOf([98], [97, 95, 98])
    requires x.skip(0, false) == 1 && x.skip(1, false) == 0 && x.bonus(0, 2, false) == 2
    requires -4 <= x.bonus(0, 2, true) <= 3
    ensures Entry(x, 1, 3, true).score == 1 && Entry(x, 1, 3, false).score < 0
  {
    hide SkipPenalty, MatchBonus;
    assert Entry(x, 0, 1, false).score == -1;
    assert Entry(x, 0, 2, false).score == -1;
    assert Entry(x, 1, 2, true) == AWFUL && Entry(x, 1, 2, false).score < -4096;
  }

  lemma BIsFound(x: Problem)
    requires x == ProblemOf([98], [97, 95, 98])
    ensures Greedy(x, 0, 0)
  {
    hide SkipPenalty, MatchBonus;
    assert Greedy(x, 1, 3);
    assert Greedy(x, 0, 2);
    assert Greedy(x, 0, 1);
  }

  /** b in a_b: skipping a costs 1, skipping _ nothing, and b starts a segment as the pattern does: 2 - 1. */
  lemma BInAUnderscoreB()
    ensures var pat: Bytes, word: Bytes := [98], [97, 95, 98];
      Best(ProblemOf(pat, word)) == 1 && MatchResult(pat, word) == Some(Scaled(1, 1))
  {
    hide RoleAt, CaseSensitive, Scaled, Entry, Greedy;
    var pat: Bytes, word: Bytes := [98], [97, 95, 98];
    var x := ProblemOf(pat, word);
    ProblemIsSized(pat, word);
    SkipLaws(pat, word, 0);
    SkipLaws(pat, word, 1);
    BonusOutsideSegments(pat, word, 0, 2, false);
    EntriesOfBInAUnderscoreB(x);
    BIsFound(x);
  }
}
