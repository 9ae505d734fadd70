/** Segmentation and scoring of a pattern against a word; both texts already truncated. */
module FuzzySpec {
  import opened Options
  import opened ByteText
  import opened AlignmentTable
  import opened FuzzyFloat

  function Lower(c: Byte): Byte { if 65 <= c <= 90 then c + 32 else c }

  // ---------------------------------------------------------------- segmentation

  type CharType = t: int | 0 <= t < 4
  const EMPTY: CharType := 0
  const LOWER: CharType := 1
  const UPPER: CharType := 2
  const PUNCTUATION: CharType := 3

  type CharRole = r: int | 0 <= r < 4
  const UNKNOWN: CharRole := 0
  const TAIL: CharRole := 1
  const HEAD: CharRole := 2
  const SEPARATOR: CharRole := 3

  /** Four two-bit entries per byte: the low bits of the index select the offset. */
  const ASCII_TYPES: Bytes := [
    0x00, 0x00, 0x00, 0x00,
    0x00, 0x00, 0x00, 0x00,
    0xff, 0xff, 0xff, 0xff,
    0x55, 0x55, 0xf5, 0xff,
    0xab, 0xaa, 0xaa, 0xaa,
    0xaa, 0xaa, 0xea, 0xff,
    0x57, 0x55, 0x55, 0x55,
    0x55, 0x55, 0xd5, 0x3f]

  const CHAR_TYPES: Bytes := ASCII_TYPES + [
    0x55, 0x55, 0x55, 0x55, 0x55, 0x55, 0x55, 0x55,
    0x55, 0x55, 0x55, 0x55, 0x55, 0x55, 0x55, 0x55,
    0x55, 0x55, 0x55, 0x55, 0x55, 0x55, 0x55, 0x55,
    0x55, 0x55, 0x55, 0x55, 0x55, 0x55, 0x55, 0x55]

  const CHAR_ROLES: Bytes := [
    0x00, 0xaa, 0xaa, 0xff,
    0x00, 0x55, 0xaa, 0xff,
    0x00, 0x55, 0x59, 0xff,
    0x00, 0xaa, 0xaa, 0xff]

  function PackedLookup(data: Bytes, i: nat): (entry: int)
    requires i < 4 * |data|
    ensures 0 <= entry < 4
  {
    data[i / 4] / (if i % 4 == 0 then 1 else if i % 4 == 1 then 4 else if i % 4 == 2 then 16 else 64) % 4
  }

  function TypeOf(c: Byte): CharType { PackedLookup(CHAR_TYPES, c) }

  /** The role for a window of three types packed into six bits. */
  function RoleOfKey(key: nat): CharRole
    requires key < 64
  {
    PackedLookup(CHAR_ROLES, key)
  }

  function RoleFor(prev: CharType, curr: CharType, next: CharType): CharRole {
    RoleOfKey(16 * prev + 4 * curr + next)
  }

  function TypeAt(text: Bytes, i: int): CharType {
    if 0 <= i < |text| then TypeOf(text[i]) else EMPTY
  }

  /** A character's role depends on its own type and its neighbours'. */
  function RoleAt(text: Bytes, i: nat): CharRole
    requires i < |text|
  {
    RoleFor(TypeAt(text, i - 1), TypeAt(text, i), TypeAt(text, i + 1))
  }

  /** The packed table says what the comments promise about segments. */
  lemma RoleMeaning(prev: CharType, curr: CharType, next: CharType)
    ensures curr == EMPTY ==> RoleFor(prev, curr, next) == UNKNOWN
    ensures curr == PUNCTUATION ==> RoleFor(prev, curr, next) == SEPARATOR
    ensures curr == LOWER ==>
              RoleFor(prev, curr, next) == if prev == EMPTY || prev == PUNCTUATION then HEAD else TAIL
    ensures curr == UPPER ==>
              RoleFor(prev, curr, next) == if prev == UPPER && next != LOWER then TAIL else HEAD
  {
    var i := 16 * prev + 4 * curr + next;
    assert i / 4 == 4 * prev + curr && i % 4 == next;
    var row := CHAR_ROLES[4 * prev + curr];
    assert row ==
      if curr == EMPTY then 0x00 else if curr == PUNCTUATION then 0xff
      else if prev == EMPTY || prev == PUNCTUATION then 0xaa
      else if curr == LOWER then 0x55 else if prev == LOWER then 0xaa else 0x59;
    RowLookup(row, next);
  }

  lemma RowLookup(row: Byte, next: CharType)
    requires row in {0x00, 0x55, 0x59, 0xaa, 0xff}
    ensures row / (if next == 0 then 1 else if next == 1 then 4 else if next == 2 then 16 else 64) % 4 ==
            if row == 0x00 then UNKNOWN else if row == 0x55 then TAIL else if row == 0xaa then HEAD
            else if row == 0xff then SEPARATOR else if next == LOWER then HEAD else TAIL
  {
  }

  /** The type table: control characters, ASCII letters, digits with bytes over 127, the rest. */
  function DeclaredType(c: Byte): CharType {
    if c < 32 || c == 127 then EMPTY
    else if 65 <= c <= 90 then UPPER
    else if 97 <= c <= 122 || 48 <= c <= 57 || c > 127 then LOWER
    else PUNCTUATION
  }

  lemma TypeRow(i: nat)
    requires i < 64
    ensures CHAR_TYPES[i] ==
      if i < 8 then 0x00 else if i < 12 then 0xff else if i < 14 then 0x55 else if i == 14 then 0xf5
      else if i == 15 then 0xff else if i == 16 then 0xab else if i < 22 then 0xaa else if i == 22 then 0xea
      else if i == 23 then 0xff else if i == 24 then 0x57 else if i < 30 then 0x55 else if i == 30 then 0xd5
      else if i == 31 then 0x3f else 0x55
  {
    assert |ASCII_TYPES| == 32;
    if i >= 32 {
      assert CHAR_TYPES[32..] == seq(32, _ => 0x55);
      assert CHAR_TYPES[i] == CHAR_TYPES[32..][i - 32];
    } else {
      assert CHAR_TYPES[i] == ASCII_TYPES[i];
    }
  }

  lemma TypeMeaning(c: Byte)
    ensures TypeOf(c) == DeclaredType(c)
  {
    TypeRow(c / 4);
    var row, offset := CHAR_TYPES[c / 4], c % 4;
    var entry := row / (if offset == 0 then 1 else if offset == 1 then 4 else if offset == 2 then 16 else 64) % 4;
    assert TypeOf(c) == entry;
    assert row == 0x00 ==> entry == 0;
    assert row == 0x55 ==> entry == 1;
    assert row == 0xaa ==> entry == 2;
    assert row == 0xff ==> entry == 3;
    assert row == 0xf5 ==> entry == if offset < 2 then 1 else 3;
    assert row == 0xab ==> entry == if offset == 0 then 3 else 2;
    assert row == 0xea ==> entry == if offset == 3 then 3 else 2;
    assert row == 0x57 ==> entry == if offset == 0 then 3 else 1;
    assert row == 0xd5 ==> entry == if offset == 3 then 3 else 1;
    assert row == 0x3f ==> entry == if offset == 3 then 0 else 3;
  }

  // ---------------------------------------------------------------- scores

  predicate CaseSensitive(pat: Bytes) {
    exists i :: 0 <= i < |pat| && Lower(pat[i]) != pat[i]
  }

  function PenaltyFrom(wordRole: CharRole, last: bool): (penalty: int)
    ensures 0 <= penalty <= 3
  {
    (if wordRole == HEAD then 1 else 0) + (if last then 2 else 0)
  }

  /** `aligned`: as many word as pattern characters came before; `sameCase`: the cases match and count. */
  function BonusFrom(aligned: bool, first: bool, sameCase: bool, patRole: CharRole, wordRole: CharRole, last: bool)
    : (bonus: int)
    ensures -4 <= bonus <= 3
  {
    1
    + (if aligned then 1 else 0)
    + (if sameCase || (patRole == HEAD && wordRole == HEAD) then 1 else 0)
    - (if wordRole == TAIL && !first && !last then 3 else 0)
    - (if patRole == HEAD && wordRole == TAIL then 1 else 0)
    - (if first && wordRole == TAIL then 4 else 0)
  }

  function SkipPenalty(word: Bytes, w: nat, last: bool): (penalty: int)
    requires w < |word|
    ensures 0 <= penalty <= 3
  {
    PenaltyFrom(RoleAt(word, w), last)
  }

  function MatchBonus(pat: Bytes, word: Bytes, p: nat, w: nat, last: bool): (bonus: int)
    requires p < |pat| && w < |word|
    ensures -4 <= bonus <= 3
  {
    BonusFrom(p == w, p == 0, pat[p] == word[w]
      && (CaseSensitive(pat) || p == w), RoleAt(pat, p), RoleAt(word, w), last)
  }

  /** The alignment problem of a pattern and a word: which characters may be paired, what skipping
      and pairing are worth. */
  function ProblemOf(pat: Bytes, word: Bytes): Problem {
    Problem(|pat|, |word|,
      (p: nat, w: nat) => p < |pat| && w < |word| && Lower(pat[p]) == Lower(word[w]),
      (w: nat, last: bool) => if w < |word| then SkipPenalty(word, w, last) else 0,
      (p: nat, w: nat, last: bool) => if p < |pat| && w < |word| then MatchBonus(pat, word, p, w, last) else 0)
  }

  lemma ProblemIsSized(pat: Bytes, word: Bytes)
    requires 0 < |pat| <= MAX_PAT && |word| <= MAX_WORD
    ensures Sized(ProblemOf(pat, word))
  {
  }

  // ---------------------------------------------------------------- what match() promises

  /** f shows that the lower-cased pattern is a subsequence of the lower-cased word. */
  ghost predicate Witnesses(pat: Bytes, word: Bytes, f: seq<nat>) {
    && |f| == |pat|
    && (forall i :: 0 <= i < |f| ==> f[i] < |word| && Lower(pat[i]) == Lower(word[f[i]]))
    && (forall i, j | 0 <= i < j < |f| :: f[i] < f[j])
  }

  ghost predicate Subsequence(pat: Bytes, word: Bytes) {
    exists f: seq<nat> :: Witnesses(pat, word, f)
  }

  function Truncated(text: Bytes, n: nat): Bytes {
    if |text| <= n then text else text[..n]
  }

  /** ScoreScale: the rounded reciprocal of a perfect score. */
  function ScaleFor(patN: nat): Float
    requires patN > 0
  {
    Reciprocal(PERFECT_BONUS * patN)
  }

  function Clamped(patN: nat, best: int): (score: nat)
    ensures score <= PERFECT_BONUS * patN
  {
    Min(PERFECT_BONUS * patN, Max(0, best))
  }

  /** ScoreScale * clamp(best): the number that the returned float stands for. */
  function Scaled(patN: nat, best: int): real
    requires patN > 0
  {
    RealValue(Times(ScaleFor(patN), Clamped(patN, best)))
  }

  lemma SameExponentOrders(f: Float, g: Float)
    requires f.exponent == g.exponent && f.units < g.units
    ensures RealValue(f) < RealValue(g)
  {
  }

  /** Among the words for one pattern, returned floats order as the clamped best totals do. */
  lemma ScaledOrders(patN: nat, best: int, other: int)
    requires 0 < patN <= MAX_PAT
    ensures Scaled(patN, best) < Scaled(patN, other) <==> Clamped(patN, best) < Clamped(patN, other)
  {
    hide Times, Reciprocal;
    var a, b := Clamped(patN, best), Clamped(patN, other);
    SameExponents(patN, a, b);
    if a < b {
      ScoresAreOrdered(patN, a, b);
      SameExponentOrders(Times(ScaleFor(patN), a), Times(ScaleFor(patN), b));
    } else if b < a {
      ScoresAreOrdered(patN, b, a);
      SameExponentOrders(Times(ScaleFor(patN), b), Times(ScaleFor(patN), a));
    }
  }

  lemma SameExponents(patN: nat, a: nat, b: nat)
    requires patN > 0
    ensures Times(ScaleFor(patN), a).exponent == Times(ScaleFor(patN), b).exponent
  {
  }

  /** The result of match() for truncated texts. */
  function MatchResult(pat: Bytes, word: Bytes): Option<real> {
    if |pat| > |word| then None
    else if |pat| == 0 then Some(1.0)
    else if !Greedy(ProblemOf(pat, word), 0, 0) then None
    else if IsAwful(Best(ProblemOf(pat, word))) then None
    else Some(Scaled(|pat|, Best(ProblemOf(pat, word))))
  }

  /** A word matches exactly when the pattern, ignoring case, is a subsequence of it. */
  lemma MatchesAreSubsequences(pat: Bytes, word: Bytes)
    requires |pat| <= MAX_PAT && |word| <= MAX_WORD
    ensures MatchResult(pat, word).Some? <==> Subsequence(pat, word)
  {
    var x := ProblemOf(pat, word);
    if |pat| == 0 {
      assert Witnesses(pat, word, []);
    } else {
      ProblemIsSized(pat, word);
      CheapCheckIsExact(x);
      assert forall f: seq<nat> :: Embeds(x, f) <==> Witnesses(pat, word, f);
      forall f: seq<nat> | Witnesses(pat, word, f)
        ensures |pat| <= |word|
      {
        PlacesNeedRoom(pat, word, f, |pat| - 1);
      }
    }
  }

  lemma {:induction false} PlacesNeedRoom(pat: Bytes, word: Bytes, f: seq<nat>, i: nat)
    requires Witnesses(pat, word, f) && i < |f|
    ensures i <= f[i]
  {
    if i > 0 {
      PlacesNeedRoom(pat, word, f, i - 1);
    }
  }

  /** Scores are floats in [0,1], scaled from the best total over all ways to align the whole pattern. */
  lemma MatchScoresAreBest(pat: Bytes, word: Bytes)
    requires 0 < |pat| <= MAX_PAT && |word| <= MAX_WORD && MatchResult(pat, word).Some?
    ensures 0.0 <= MatchResult(pat, word).value <= 1.0
    ensures var x := ProblemOf(pat, word);
            && MatchResult(pat, word).value == Scaled(|pat|, Best(x))
            && (forall a :: Complete(x, a) ==> Total(x, a) <= Best(x))
            && (exists a :: Complete(x, a) && Total(x, a) == Best(x))
  {
    hide RealValue, Times, Reciprocal, Entry, Greedy;
    var x := ProblemOf(pat, word);
    ProblemIsSized(pat, word);
    BestIsBest(x);
    ScoreRange(|pat|, Clamped(|pat|, Best(x)));
  }

  // ---------------------------------------------------------------- prefixes score 1

  /** A role in a prefix differs from the role in the whole text only by what follows, and never
      turns a tail into a head. */
  lemma PrefixRoles(pat: Bytes, word: Bytes, i: nat)
    requires pat <= word && i < |pat|
    ensures RoleAt(pat, i) == HEAD ==> RoleAt(word, i) != TAIL
    ensures i == 0 ==> RoleAt(word, i) != TAIL
  {
    hide RoleFor, TypeOf, RoleOfKey, PackedLookup;
    var prev, curr := TypeAt(word, i - 1), TypeAt(word, i);
    assert prev == TypeAt(pat, i - 1) && curr == TypeAt(pat, i);
    RoleMeaning(prev, curr, TypeAt(pat, i + 1));
    RoleMeaning(prev, curr, TypeAt(word, i + 1));
    assert i + 1 < |pat| ==> TypeAt(pat, i + 1) == TypeAt(word, i + 1);
  }

  lemma PrefixBonus(pat: Bytes, word: Bytes, i: nat, last: bool)
    requires pat <= word && i < |pat| && (i > 0 ==> last)
    ensures MatchBonus(pat, word, i, i, last) == PERFECT_BONUS
  {
    PrefixRoles(pat, word, i);
  }

  lemma {:induction false} PrefixAlignment(pat: Bytes, word: Bytes, n: nat)
    requires pat <= word && n <= |pat| && 0 < |pat| <= MAX_PAT && |word| <= MAX_WORD
    ensures var a := seq(n, _ => true);
            Reaches(ProblemOf(pat, word), n, n, n > 0, a) && Total(ProblemOf(pat, word), a) == PERFECT_BONUS * n
  {
    if n > 0 {
      ProblemIsSized(pat, word);
      PrefixAlignment(pat, word, n - 1);
      PrefixBonus(pat, word, n - 1, n > 1);
      Extended(ProblemOf(pat, word), n - 1, n - 1, n > 1, seq(n - 1, _ => true), true);
      assert seq(n, _ => true) == seq(n - 1, _ => true) + [true];
    }
  }

  /** Trailing characters are skipped for free. */
  lemma {:induction false} TrailingSkips(x: Problem, a: Alignment, w: nat, last: bool, k: nat)
    returns (b: Alignment)
    requires Sized(x) && Reaches(x, x.patN, w, last, a) && w + k == x.wordN
    ensures Complete(x, b) && Total(x, b) == Total(x, a)
    decreases k
  {
    b := a;
    if k > 0 {
      Extended(x, x.patN, w, last, a, false);
      b := TrailingSkips(x, a + [false], w + 1, false, k - 1);
    }
  }

  lemma ExactPrefixIsPerfect(pat: Bytes, word: Bytes)
    requires pat <= word && 0 < |pat| <= MAX_PAT && |word| <= MAX_WORD
    ensures MatchResult(pat, word) == Some(RealValue(Times(ScaleFor(|pat|), PERFECT_BONUS * |pat|)))
  {
    var x := ProblemOf(pat, word);
    ProblemIsSized(pat, word);
    PrefixAlignment(pat, word, |pat|);
    var a := TrailingSkips(x, seq(|pat|, _ => true), |pat|, true, |word| - |pat|);
    BestIsBest(x);
    CheapCheckIsExact(x);
  }

  /** A pattern that is an exact prefix of the word has the highest score of its pattern, which is exactly 1 except for
      patterns of five lengths. */
  lemma ExactPrefixScoresOneIff(pat: Bytes, word: Bytes)
    requires pat <= word && |pat| <= MAX_PAT && |word| <= MAX_WORD
    ensures MatchResult(pat, word) == Some(1.0) <==> |pat| !in {41, 47, 53, 55, 63}
    ensures MatchResult(pat, word).Some?
    ensures forall w: Bytes :: |w| <= MAX_WORD && MatchResult(pat, w).Some? ==>
      MatchResult(pat, w).value <= MatchResult(pat, word).value
  {
    if |pat| > 0 {
      var n := |pat|;
      ExactPrefixIsPerfect(pat, word);
      ScoreRange(n, PERFECT_BONUS * n);
      PerfectLengths(n);
      forall w: Bytes | |w| <= MAX_WORD && MatchResult(pat, w).Some?
        ensures MatchResult(pat, w).value <= MatchResult(pat, word).value
      {
        ScaledOrders(n, PERFECT_BONUS * n, Best(ProblemOf(pat, w)));
      }
    }
  }

  /** 41 times the letter a, matched against itself, scores the float just below 1. */
  lemma FortyOneLettersMissOne()
    ensures var pat: Bytes := seq(41, _ => 97);
      MatchResult(pat, pat) == Some(RealValue(Float(0xFF_FFFF, 24))) && MatchResult(pat, pat).value < 1.0
  {
    var pat: Bytes := seq(41, _ => 97);
    hide MatchResult, Times, Reciprocal, RealValue;
    ExactPrefixIsPerfect(pat, pat);
    FortyOneCharactersScoreLessThanOne();
    SmallPowers();
  }
}
