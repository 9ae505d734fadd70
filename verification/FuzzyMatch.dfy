/** The FuzzyMatcher object: one pattern, matched against many words with one reused score table. */
module FuzzyMatch {
  import opened Options
  import opened ByteText
  import opened AlignmentTable
  import opened FuzzyFloat
  import opened FuzzySpec
  import opened AnnotatedWords

  /** The three latest types, six bits; the new one is shifted in: ((Types << 2) | T) & 0x3f. */
  function Rotated(types: nat, t: CharType): nat { (4 * types + t) % 64 }

  /** The window that decides the role of character i. */
  function Window(text: Bytes, i: int): (key: nat)
    ensures key < 64
  {
    16 * TypeAt(text, i - 1) + 4 * TypeAt(text, i) + TypeAt(text, i + 1)
  }

  lemma RotatedKey(a: CharType, b: CharType, c: CharType, d: CharType)
    ensures Rotated(16 * a + 4 * b + c, d) == 16 * b + 4 * c + d
  {
  }

  lemma WindowSlides(text: Bytes, i: int)
    ensures Rotated(Window(text, i - 1), TypeAt(text, i + 1)) == Window(text, i)
  {
    RotatedKey(TypeAt(text, i - 2), TypeAt(text, i - 1), TypeAt(text, i), TypeAt(text, i + 1));
  }

  lemma WindowGivesRole(text: Bytes, i: nat)
    requires i < |text|
    ensures RoleOfKey(Window(text, i)) == RoleAt(text, i)
  {
  }

  /** Slides a window of three character types along the text. */
  method CalculateRoles(text: Bytes) returns (roles: seq<CharRole>)
    requires |text| > 0
    ensures |roles| == |text| && forall i :: 0 <= i < |roles| ==> roles[i] == RoleAt(text, i)
  {
    hide TypeOf, RoleOfKey;
    var types: nat := TypeOf(text[0]);
    roles := [];
    for i := 0 to |text| - 1
      invariant types == Window(text, i - 1)
      invariant |roles| == i && forall j :: 0 <= j < i ==> roles[j] == RoleAt(text, j)
    {
      types := Rotated(types, TypeOf(text[i + 1]));
      WindowSlides(text, i);
      WindowGivesRole(text, i);
      roles := roles + [RoleOfKey(types)];
    }
    types := Rotated(types, EMPTY);
    WindowSlides(text, |text| - 1);
    WindowGivesRole(text, |text| - 1);
    roles := roles + [RoleOfKey(types)];
  }

  class FuzzyMatcher {
    const pat: Bytes
    const lowPat: Bytes
    const patRole: seq<CharRole>
    const caseSensitive: bool
    const scoreScale: Float

    var word: Bytes
    var lowWord: Bytes
    var wordRole: seq<CharRole>
    var wordContainsPattern: bool

    const scores: array3<ScoreInfo>

    /** The cells no match() ever writes. */
    ghost predicate BoundaryFilled()
      reads scores
    {
      && scores.Length0 == MAX_PAT + 1 && scores.Length1 == MAX_WORD + 1 && scores.Length2 == 2
      && |pat| <= MAX_PAT
      && scores[0, 0, 0] == ScoreInfo(0, false) && scores[0, 0, 1] == AWFUL
      && forall m, w, i | 0 <= m <= |pat| && 0 <= w < m && 0 <= i < 2 :: scores[m, w, i] == AWFUL
    }

    /** Row m holds the table's entries up to and including column w. */
    ghost predicate RowFilled(x: Problem, m: nat, w: nat)
      requires BoundaryFilled() && m <= x.patN == |pat| && w <= x.wordN <= MAX_WORD
      reads scores
    {
      forall v, i | 0 <= v <= w && 0 <= i < 2 :: scores[m, v, i] == Entry(x, m, v, i == 1)
    }

    /** Pattern data and boundary cells are fixed by the constructor. */
    ghost predicate Valid()
      reads this, scores
    {
      && |pat| <= MAX_PAT && |lowPat| == |pat| && |word| <= MAX_WORD
      && (forall i :: 0 <= i < |pat| ==> lowPat[i] == Lower(pat[i]))
      && (|pat| > 0 ==> |patRole| == |pat| && forall i :: 0 <= i < |pat| ==> patRole[i] == RoleAt(pat, i))
      && (caseSensitive <==> CaseSensitive(pat))
      && scoreScale == (if |pat| > 0 then ScaleFor(|pat|) else Float(0, 0))
      && BoundaryFilled()
    }

    /** The word data belongs to a word the cheap check has let through. */
    ghost predicate Initialised()
      reads this
    {
      && 0 < |pat| <= |word| <= MAX_WORD && |lowWord| == |wordRole| == |word|
      && (forall i :: 0 <= i < |word| ==> lowWord[i] == Lower(word[i]) && wordRole[i] == RoleAt(word, i))
    }

    /** The stored pattern and word data give the penalties and bonuses of problem x. */
    ghost predicate Agrees(x: Problem)
      reads this
    {
      && x.patN == |pat| == |lowPat| == |patRole| && x.wordN == |word| == |lowWord| == |wordRole|
      && 0 < x.patN <= MAX_PAT && x.wordN <= MAX_WORD
      && (forall w, last | 0 <= w < |word| :: x.skip(w, last) == PenaltyFrom(wordRole[w], last))
      && (forall p, w | 0 <= p < |pat| && 0 <= w < |word| :: x.same(p, w) <==> lowPat[p] == lowWord[w])
      && (forall p, w, last | 0 <= p < |pat| && 0 <= w < |word| ::
            x.bonus(p, w, last) ==
            BonusFrom(p == w, p == 0, pat[p] == word[w] && (caseSensitive || p == w), patRole[p], wordRole[w], last))
    }

    lemma DataAgrees()
      requires Valid() && Initialised()
      ensures Agrees(ProblemOf(pat, word))
    {
    }

    /** Rows 0 to p hold the table's entries. */
    ghost predicate RowsFilled(x: Problem, p: nat)
      requires BoundaryFilled() && p <= x.patN == |pat| && x.wordN <= MAX_WORD
      reads scores
    {
      forall m, v, i | 0 <= m <= p && 0 <= v <= x.wordN && 0 <= i < 2 :: scores[m, v, i] == Entry(x, m, v, i == 1)
    }

    constructor (pattern: Bytes)
      ensures Valid() && pat == Truncated(pattern, MAX_PAT) && fresh(scores)
      ensures pat == if |pattern| <= 63 then pattern else pattern[..63]
    {
      var p := if |pattern| <= MAX_PAT then pattern else pattern[..MAX_PAT];
      var low: Bytes, sensitive := [], false;
      for i := 0 to |p|
        invariant |low| == i && forall j :: 0 <= j < i ==> low[j] == Lower(p[j])
        invariant sensitive <==> exists j :: 0 <= j < i && Lower(p[j]) != p[j]
      {
        low := low + [Lower(p[i])];
        sensitive := sensitive || low[i] != p[i];
      }
      var roles: seq<CharRole> := [];
      if |p| > 0 {
        roles := CalculateRoles(p);
      }
      pat, lowPat, patRole, caseSensitive := p, low, roles, sensitive;
      scoreScale := if |p| > 0 then Reciprocal(PERFECT_BONUS * |p|) else Float(0, 0);
      word, lowWord, wordRole, wordContainsPattern := [], [], [], false;
      scores := new ScoreInfo[MAX_PAT + 1, MAX_WORD + 1, 2];
      new;
      scores[0, 0, 0], scores[0, 0, 1] := ScoreInfo(0, false), AWFUL;
      for m := 0 to |p| + 1
        modifies scores
        invariant scores[0, 0, 0] == ScoreInfo(0, false) && scores[0, 0, 1] == AWFUL
        invariant forall l, w, i | 0 <= l < m && 0 <= w < l && 0 <= i < 2 :: scores[l, w, i] == AWFUL
      {
        for w := 0 to m
          modifies scores
          invariant scores[0, 0, 0] == ScoreInfo(0, false) && scores[0, 0, 1] == AWFUL
          invariant forall l, v, i | 0 <= l < m && 0 <= v < l && 0 <= i < 2 :: scores[l, v, i] == AWFUL
          invariant forall v, i | 0 <= v < w && 0 <= i < 2 :: scores[m, v, i] == AWFUL
        {
          scores[m, w, 0] := AWFUL;
          scores[m, w, 1] := AWFUL;
        }
      }
    }

    /** Copies the word and makes the cheap subsequence check. */
    method Init(newWord: Bytes) returns (possible: bool)
      requires Valid()
      modifies this
      ensures Valid()
      ensures var w := Truncated(newWord, MAX_WORD);
              && (possible <==> |pat| <= |w| && Greedy(ProblemOf(pat, w), 0, 0))
              && (possible ==> word == w)
              && (possible && |pat| > 0 ==> Initialised())
    {
      ghost var x := ProblemOf(pat, Truncated(newWord, MAX_WORD));
      var wordN := if |newWord| < MAX_WORD then |newWord| else MAX_WORD;
      if |pat| > wordN {
        return false;
      }
      word := newWord[..wordN];
      assert word == Truncated(newWord, MAX_WORD);
      if |pat| == 0 {
        return true;
      }
      var low := [];
      for i := 0 to wordN
        invariant |low| == i && forall j :: 0 <= j < i ==> low[j] == Lower(word[j])
      {
        low := low + [Lower(word[i])];
      }
      lowWord := low;
      var w, p := 0, 0;
      while p != |pat|
        invariant 0 <= p <= |pat| && 0 <= w <= wordN
        invariant Greedy(x, p, w) == Greedy(x, 0, 0)
        decreases wordN - w
      {
        if w == wordN {
          return false;
        }
        assert x.same(p, w) == (lowWord[w] == lowPat[p]);
        if lowWord[w] == lowPat[p] {
          p := p + 1;
        }
        w := w + 1;
      }
      wordRole := CalculateRoles(word);
      return true;
    }

    method SkipPenaltyAt(w: nat, last: bool, ghost x: Problem) returns (s: int)
      requires Agrees(x) && w < |word|
      ensures s == x.skip(w, last)
    {
      s := 0;
      if wordRole[w] == HEAD {
        s := s + 1;
      }
      if last {
        s := s + 2;
      }
    }

    method MatchBonusAt(p: nat, w: nat, last: bool, ghost x: Problem) returns (s: int)
      requires Agrees(x) && p < |pat| && w < |word| && lowPat[p] == lowWord[w]
      ensures s == x.bonus(p, w, last)
      ensures s <= PERFECT_BONUS   // asserted by the source
    {
      s := 1;
      if p == w {
        s := s + 1;
      }
      if (pat[p] == word[w] && (caseSensitive || p == w)) || (patRole[p] == HEAD && wordRole[w] == HEAD) {
        s := s + 1;
      }
      if wordRole[w] == TAIL && p != 0 && !last {
        s := s - 3;
      }
      if patRole[p] == HEAD && wordRole[w] == TAIL {
        s := s - 1;
      }
      if p == 0 && wordRole[w] == TAIL {
        s := s - 4;
      }
    }

    /** Scores[p + 1][w + 1][Miss], from the two cells to its left. */
    method MissCell(p: nat, w: nat, afterMatch: int, afterMiss: int, ghost x: Problem) returns (cell: ScoreInfo)
      requires Agrees(x) && p < |pat| && w < |word|
      ensures cell == Better(afterMatch - SkipCost(x, p + 1, w, true), afterMiss - SkipCost(x, p + 1, w, false))
    {
      var matchMiss, missMiss := afterMatch, afterMiss;
      if p < |pat| - 1 {
        var matchPenalty := SkipPenaltyAt(w, true, x);
        var missPenalty := SkipPenaltyAt(w, false, x);
        matchMiss, missMiss := matchMiss - matchPenalty, missMiss - missPenalty;
      }
      cell := if matchMiss > missMiss then ScoreInfo(Stored(matchMiss), true) else ScoreInfo(Stored(missMiss), false);
    }

    /** Scores[p + 1][w + 1][Match], from the two cells diagonally before it. */
    method MatchCell(p: nat, w: nat, afterMatch: int, afterMiss: int, ghost x: Problem) returns (cell: ScoreInfo)
      requires Agrees(x) && p < |pat| && w < |word|
      ensures cell == if !x.same(p, w) then AWFUL
                      else Better(afterMatch + x.bonus(p, w, true), afterMiss + x.bonus(p, w, false))
    {
      if lowPat[p] != lowWord[w] {
        return AWFUL;
      }
      var matchBonus := MatchBonusAt(p, w, true, x);
      var missBonus := MatchBonusAt(p, w, false, x);
      var matchMatch, missMatch := afterMatch + matchBonus, afterMiss + missBonus;
      cell := if matchMatch > missMatch then ScoreInfo(Stored(matchMatch), true) else ScoreInfo(Stored(missMatch), false);
    }

    method FillFirstRow(ghost x: Problem)
      requires BoundaryFilled() && Agrees(x)
      modifies scores
      ensures BoundaryFilled() && RowFilled(x, 0, x.wordN)
    {
      StartOfRow(x);
      hide Entry;
      for w := 0 to |word|
        invariant BoundaryFilled() && RowFilled(x, 0, w)
      {
        FirstRowUnfolds(x, w);
        var penalty := SkipPenaltyAt(w, false, x);
        scores[0, w + 1, 0] := ScoreInfo(Stored(scores[0, w, 0].score - penalty), false);
        scores[0, w + 1, 1] := AWFUL;
      }
    }

    /** Stores the two cells for (m, w), which extends the filled part of row m by one column. */
    method Store(m: nat, w: nat, miss: ScoreInfo, hit: ScoreInfo, ghost x: Problem)
      requires BoundaryFilled() && 0 < m <= x.patN == |pat| && m <= w <= x.wordN <= MAX_WORD
      requires RowFilled(x, m, w - 1) && miss == Entry(x, m, w, false) && hit == Entry(x, m, w, true)
      modifies scores
      ensures BoundaryFilled() && RowFilled(x, m, w)
      ensures forall l, v, i | 0 <= l < m && 0 <= v <= MAX_WORD && 0 <= i < 2 ::
                scores[l, v, i] == old(scores[l, v, i])
    {
      scores[m, w, 0] := miss;
      scores[m, w, 1] := hit;
      forall v, i | 0 <= v <= w && 0 <= i < 2
        ensures scores[m, v, i] == Entry(x, m, v, i == 1)
      {
        assert v < w ==> scores[m, v, i] == old(scores[m, v, i]);
      }
    }

    method FillCell(p: nat, w: nat, ghost x: Problem)
      requires BoundaryFilled() && Agrees(x) && p < |pat| && p <= w < |word|
      requires RowFilled(x, p, w) && RowFilled(x, p + 1, w)
      modifies scores
      ensures BoundaryFilled() && RowFilled(x, p + 1, w + 1)
      ensures forall l, v, i | 0 <= l <= p && 0 <= v <= MAX_WORD && 0 <= i < 2 ::
                scores[l, v, i] == old(scores[l, v, i])
    {
      hide Entry;
      var miss := MissCell(p, w, scores[p + 1, w, 1].score, scores[p + 1, w, 0].score, x);
      var hit := MatchCell(p, w, scores[p, w, 1].score, scores[p, w, 0].score, x);
      CellsUnfold(x, p, w);
      Store(p + 1, w + 1, miss, hit, x);
    }

    method FillRow(p: nat, ghost x: Problem)
      requires BoundaryFilled() && Agrees(x) && p < |pat| <= |word| && RowFilled(x, p, x.wordN)
      modifies scores
      ensures BoundaryFilled() && RowFilled(x, p + 1, x.wordN)
      ensures forall l, v, i | 0 <= l <= p && 0 <= v <= MAX_WORD && 0 <= i < 2 ::
                scores[l, v, i] == old(scores[l, v, i])
    {
      assert RowFilled(x, p + 1, p);
      hide Entry;
      for w := p to |word|
        invariant BoundaryFilled() && RowFilled(x, p + 1, w)
        invariant forall l, v, i | 0 <= l <= p && 0 <= v <= MAX_WORD && 0 <= i < 2 ::
          scores[l, v, i] == old(scores[l, v, i])
      {
        forall v, i | 0 <= v <= w && 0 <= i < 2
          ensures scores[p, v, i] == Entry(x, p, v, i == 1)
        {
          assert scores[p, v, i] == old(scores[p, v, i]);
        }
        FillCell(p, w, x);
      }
    }

    /** Fills row 0 and then each row from the diagonal on; earlier cells are the constructor's. */
    method BuildGraph(ghost x: Problem)
      requires BoundaryFilled() && Agrees(x) && |pat| <= |word|
      modifies scores
      ensures BoundaryFilled() && RowsFilled(x, x.patN)
    {
      FillFirstRow(x);
      for p := 0 to |pat|
        invariant BoundaryFilled()
        invariant RowsFilled(x, p)
      {
        assert RowFilled(x, p, x.wordN);
        FillRow(p, x);
        forall m, v, i | 0 <= m <= p + 1 && 0 <= v <= x.wordN && 0 <= i < 2
          ensures scores[m, v, i] == Entry(x, m, v, i == 1)
        {
        }
      }
    }

    /** What dumpLast relies on after match(). */
    ghost predicate Dumpable()
      reads this, scores
    {
      Valid() && (wordContainsPattern && |pat| > 0 ==>
        Initialised() && Greedy(ProblemOf(pat, word), 0, 0) && RowsFilled(ProblemOf(pat, word), |pat|))
    }

    /** The result depends on the word alone, not on what earlier calls left behind. */
    method Match(newWord: Bytes) returns (result: Option<real>)
      requires Valid()
      modifies this, scores
      ensures Valid() && result == MatchResult(pat, Truncated(newWord, MAX_WORD))
      ensures result == MatchResult(pat, if |newWord| <= 127 then newWord else newWord[..127])
      ensures result.Some? ==> wordContainsPattern
      ensures result.Some? ==> word == Truncated(newWord, MAX_WORD)
      ensures Dumpable()
    {
      hide RoleAt, CaseSensitive, Entry, Times, Reciprocal, RealValue;
      var possible := Init(newWord);
      wordContainsPattern := possible;
      if !possible {
        return None;
      }
      if |pat| == 0 {
        return Some(1.0);
      }
      ghost var x := ProblemOf(pat, word);
      DataAgrees();
      BuildGraph(x);
      ProblemIsSized(pat, word);
      assert RowFilled(x, x.patN, x.wordN);
      var best := Max(scores[|pat|, |word|, 0].score, scores[|pat|, |word|, 1].score);
      assert best == AlignmentTable.Best(x);
      if IsAwful(best) {
        return None;
      }
      return Some(RealValue(Times(scoreScale, Min(PERFECT_BONUS * |pat|, Max(0, best)))));
    }
  
    /** Reads a cell and the one its Prev refers to; the difference is the character's own score. */
    method StepBack(m: nat, w: nat, last: bool, ghost x: Problem) returns (before: nat, prev: bool, letterScore: int)
      requires BoundaryFilled() && 0 < w <= |word| && Sized(x) && x.patN == |pat| && x.wordN == |word|
      requires RowsFilled(x, x.patN) && m <= |pat| && !IsAwful(Entry(x, m, w, last).score)
      ensures (last ==> m > 0) && before == if last then m - 1 else m
      ensures prev == Entry(x, m, w, last).prev
      ensures letterScore == Entry(x, m, w, last).score - Entry(x, before, w - 1, prev).score
    {
      TraceStep(x, m, w, last);
      hide Entry;
      var cell := scores[m, w, if last then 1 else 0];
      assert cell == Entry(x, m, w, last);
      before := if last then m - 1 else m;
      prev := cell.prev;
      letterScore := cell.score - scores[before, w - 1, if prev then 1 else 0].score;
    }

    /** Walks the recorded previous actions from the final cell back to the start of the word. */
    method Traceback(ghost x: Problem) returns (actions: seq<bool>, letterScores: seq<int>)
      requires BoundaryFilled() && |word| > 0 && Sized(x) && x.patN == |pat| && x.wordN == |word|
      requires RowsFilled(x, x.patN) && Greedy(x, 0, 0)
      ensures Complete(x, actions) && Total(x, actions) == Best(x)
      ensures EarliestBest(x, actions)
      ensures |letterScores| == |actions| && Sum(letterScores) == Best(x)
    {
      hide Entry, Greedy, Complete, Total;
      var last := scores[|pat|, |word|, 1].score > scores[|pat|, |word|, 0].score;
      ghost var final := last;
      actions, letterScores := [], [];
      var w: nat, m: nat := |word|, |pat|;
      WalkStarts(x, final);
      hide Walking, RowsFilled, BoundaryFilled, Best, Sum, Sized, IsAwful;
      while w > 0
        invariant w <= |word| && m <= |pat|
        invariant Walking(x, final, m, w, last, actions, letterScores)
      {
        WalkContinues(x, final, m, w, last, actions, letterScores);
        var before, prev, letterScore := StepBack(m, w, last, x);
        actions, letterScores := [last] + actions, [letterScore] + letterScores;
        w, m, last := w - 1, before, prev;
      }
      WalkEnds(x, final, m, last, actions, letterScores);
    }

    /** The word with [] around its matched stretches; empty when the last word did not match. */
    method DumpLast() returns (annotated: Bytes, ghost actions: seq<bool>)
      requires Dumpable()
      ensures |pat| == 0 ==> annotated == word
      ensures |pat| > 0 && !wordContainsPattern ==> annotated == []
      ensures |pat| > 0 && wordContainsPattern ==>
                var x := ProblemOf(pat, word);
                && Complete(x, actions) && Total(x, actions) == Best(x)
                && EarliestBest(x, actions)
                && Witnesses(pat, word, Places(actions))
                && annotated == Render(Bracketed(word, actions))
    {
      actions := [];
      if |pat| == 0 {
        return word, [];
      }
      annotated := [];
      if !wordContainsPattern {
        return;
      }
      ghost var x := ProblemOf(pat, word);
      ProblemIsSized(pat, word);
      var a, _ := Traceback(x);
      actions := a;
      PlacesAreInOrder(x, a);
      annotated := Annotate(word, a);
    }
  }

  function Sum(s: seq<int>): int {
    if s == [] then 0 else s[0] + Sum(s[1..])
  }

  lemma SumOfCons(a: int, s: seq<int>)
    ensures Sum([a] + s) == a + Sum(s)
  {
    assert ([a] + s)[1..] == s;
  }

  /** A walk back from the final entry has come to (m, w, last); what it has seen completes the trace
      to there, and the letter scores seen make up the difference to the best score. */
  ghost predicate Walking(x: Problem, final: bool, m: nat, w: nat, last: bool, actions: seq<bool>,
                          letterScores: seq<int>) {
    && Sized(x) && m <= x.patN && w <= x.wordN && |actions| == |letterScores| == x.wordN - w
    && !IsAwful(Entry(x, m, w, last).score) && TraceScores(x, x.patN, x.wordN, final)
    && Entry(x, x.patN, x.wordN, final).score == Best(x)
    && (final <==> Entry(x, x.patN, x.wordN, true).score > Entry(x, x.patN, x.wordN, false).score)
    && Trace(x, x.patN, x.wordN, final) == Trace(x, m, w, last) + actions
    && Sum(letterScores) == Best(x) - Entry(x, m, w, last).score
  }

  lemma WalkStarts(x: Problem, final: bool)
    requires Sized(x) && Greedy(x, 0, 0)
    requires final <==> Entry(x, x.patN, x.wordN, true).score > Entry(x, x.patN, x.wordN, false).score
    ensures Walking(x, final, x.patN, x.wordN, final, [], [])
  {
    CheapCheckIsExact(x);
    hide Entry, Trace;
    TraceIsOptimal(x, x.patN, x.wordN, final);
    assert Trace(x, x.patN, x.wordN, final) + [] == Trace(x, x.patN, x.wordN, final);
  }

  lemma WalkContinues(x: Problem, final: bool, m: nat, w: nat, last: bool, actions: seq<bool>, letterScores: seq<int>)
    requires w > 0 && Walking(x, final, m, w, last, actions, letterScores)
    ensures !IsAwful(Entry(x, m, w, last).score) && (last ==> m > 0)
    ensures var before, e := if last then m - 1 else m, Entry(x, m, w, last);
            Walking(x, final, before, w - 1, e.prev, [last] + actions,
                    [e.score - Entry(x, before, w - 1, e.prev).score] + letterScores)
  {
    hide Entry, Trace;
    TraceWalk(x, m, w, last, actions);
    var before, e := if last then m - 1 else m, Entry(x, m, w, last);
    SumOfCons(e.score - Entry(x, before, w - 1, e.prev).score, letterScores);
  }

  lemma WalkEnds(x: Problem, final: bool, m: nat, last: bool, actions: seq<bool>, letterScores: seq<int>)
    requires Walking(x, final, m, 0, last, actions, letterScores)
    ensures Complete(x, actions) && Total(x, actions) == Best(x) && EarliestBest(x, actions)
    ensures |letterScores| == |actions| && Sum(letterScores) == Best(x)
  {
    hide Entry, Trace, Complete, Total;
    TraceStart(x, m, last);
    FinalTraceIsEarliest(x, final);
    assert [] + actions == actions;
  }
}
