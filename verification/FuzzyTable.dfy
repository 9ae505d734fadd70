/** Alignments of a pattern with a word, their scores, and the table that finds the best ones. */
module AlignmentTable {
  /** Sizes, which characters may be paired, the penalty for skipping word character w and the bonus
      for pairing p with w, given whether the word character before w was matched. */
  datatype Problem = Problem(
    patN: nat,
    wordN: nat,
    same: (nat, nat) -> bool,
    skip: (nat, bool) -> int,
    bonus: (nat, nat, bool) -> int)

  // ---------------------------------------------------------------- alignments

  /** One action per consumed word character: true is Match, false is Miss. */
  type Alignment = seq<bool>

  function Matched(a: Alignment): nat {
    if a == [] then 0 else Matched(a[..|a| - 1]) + if a[|a| - 1] then 1 else 0
  }

  function LastAction(a: Alignment): bool { a != [] && a[|a| - 1] }

  /** Every match pairs the next unmatched pattern character with an equal one. */
  predicate Legal(x: Problem, a: Alignment) {
    || a == []
    || (var prev := a[..|a| - 1];
        && |a| <= x.wordN
        && Legal(x, prev)
        && (a[|a| - 1] ==> Matched(prev) < x.patN && x.same(Matched(prev), |a| - 1)))
  }

  /** Skipping is free once the whole pattern has been matched. */
  function SkipCost(x: Problem, m: nat, w: nat, last: bool): int {
    if m < x.patN then x.skip(w, last) else 0
  }

  function Total(x: Problem, a: Alignment): int {
    if a == [] then 0
    else
      var prev := a[..|a| - 1];
      if a[|a| - 1] then Total(x, prev) + x.bonus(Matched(prev), |prev|, LastAction(prev))
      else Total(x, prev) - SkipCost(x, Matched(prev), |prev|, LastAction(prev))
  }

  /** a consumes w word characters and m pattern characters and ends with the given action. */
  predicate Reaches(x: Problem, m: nat, w: nat, last: bool, a: Alignment) {
    Legal(x, a) && Matched(a) == m && |a| == w && LastAction(a) == last
  }

  // ---------------------------------------------------------------- the table

  const MAX_PAT := 63
  const MAX_WORD := 127
  const AWFUL_SCORE := -8192   // -(1 << 13)
  const PERFECT_BONUS := 3

  predicate IsAwful(score: int) { score < -4096 }   // AwfulScore / 2

  /** What a signed 15-bit field holds after a score was stored in it. */
  function Stored(score: int): int {
    if -16384 <= score < 16384 then score else (score + 16384) % 32768 - 16384
  }

  datatype ScoreInfo = ScoreInfo(score: int, prev: bool)

  const AWFUL := ScoreInfo(AWFUL_SCORE, false)

  function Better(afterMatch: int, afterMiss: int): ScoreInfo {
    if afterMatch > afterMiss then ScoreInfo(Stored(afterMatch), true) else ScoreInfo(Stored(afterMiss), false)
  }

  /** Scores[m][w][last]. */
  function Entry(x: Problem, m: nat, w: nat, last: bool): ScoreInfo
    requires m <= x.patN && w <= x.wordN
    decreases w
  {
    if w < m then AWFUL
    else if m == 0 then
      if last then AWFUL
      else if w == 0 then ScoreInfo(0, false)
      else ScoreInfo(Stored(Entry(x, 0, w - 1, false).score - x.skip(w - 1, false)), false)
    else if !last then
      Better(Entry(x, m, w - 1, true).score - SkipCost(x, m, w - 1, true),
             Entry(x, m, w - 1, false).score - SkipCost(x, m, w - 1, false))
    else if !x.same(m - 1, w - 1) then AWFUL
    else
      Better(Entry(x, m - 1, w - 1, true).score + x.bonus(m - 1, w - 1, true),
             Entry(x, m - 1, w - 1, false).score + x.bonus(m - 1, w - 1, false))
  }

  /** Texts are truncated, the pattern is not empty (that is answered at once), and single penalties and bonuses are small. */
  ghost predicate Sized(x: Problem) {
    && 0 < x.patN <= MAX_PAT && x.wordN <= MAX_WORD
    && (forall w, last :: 0 <= x.skip(w, last) <= 3)
    && (forall p, w, last :: -4 <= x.bonus(p, w, last) <= 3)
  }

  predicate Plausible(score: int, w: nat) { -4 * w <= score <= 3 * w }

  predicate Hopeless(score: int, w: nat) { AWFUL_SCORE - 4 * w <= score <= AWFUL_SCORE + 3 * w }

  predicate Fits(score: int, w: nat) {
    && -16384 <= score < 16384
    && (if IsAwful(score) then Hopeless(score, w) else Plausible(score, w))
  }

  lemma OneStepFits(score: int, change: int, w: nat)
    requires w < MAX_WORD && Fits(score, w) && -4 <= change <= 3
    ensures Fits(score + change, w + 1)
    ensures IsAwful(score) <==> IsAwful(score + change)
  {
  }

  /** The two predecessors of an entry and what the last action adds to each. */
  lemma EntryUnfolds(x: Problem, m: nat, w: nat, last: bool)
    requires Sized(x) && 0 < m <= w <= x.wordN && m <= x.patN
    requires last ==> x.same(m - 1, w - 1)
    ensures var before := if last then m - 1 else m;
            Entry(x, m, w, last) == Better(Entry(x, before, w - 1, true).score + Change(x, m, w, last, true),
                                           Entry(x, before, w - 1, false).score + Change(x, m, w, last, false))
  {
  }

  lemma StartOfRow(x: Problem)
    ensures Entry(x, 0, 0, false) == ScoreInfo(0, false) && Entry(x, 0, 0, true) == AWFUL
  {
  }

  lemma FirstRowUnfolds(x: Problem, w: nat)
    requires w < x.wordN
    ensures Entry(x, 0, w + 1, false) == ScoreInfo(Stored(Entry(x, 0, w, false).score - x.skip(w, false)), false)
    ensures Entry(x, 0, w + 1, true) == AWFUL
  {
  }

  /** How the two cells for (p + 1, w + 1) come from their neighbours. */
  lemma CellsUnfold(x: Problem, p: nat, w: nat)
    requires p < x.patN && p <= w < x.wordN
    ensures Entry(x, p + 1, w + 1, false) ==
            Better(Entry(x, p + 1, w, true).score - SkipCost(x, p + 1, w, true),
                   Entry(x, p + 1, w, false).score - SkipCost(x, p + 1, w, false))
    ensures Entry(x, p + 1, w + 1, true) ==
            if !x.same(p, w) then AWFUL
            else Better(Entry(x, p, w, true).score + x.bonus(p, w, true),
                        Entry(x, p, w, false).score + x.bonus(p, w, false))
  {
  }

  function Change(x: Problem, m: nat, w: nat, last: bool, prev: bool): int
    requires w > 0 && (last ==> m > 0)
  {
    if last then x.bonus(m - 1, w - 1, prev) else -SkipCost(x, m, w - 1, prev)
  }

  lemma ChangeIsSmall(x: Problem, m: nat, w: nat, last: bool, prev: bool)
    requires Sized(x) && w > 0 && (last ==> m > 0)
    ensures -4 <= Change(x, m, w, last, prev) <= 3
  {
  }

  /** Every entry is a real score or close to the sentinel, so the 15-bit field never overflows and
      `isAwful` separates the two kinds. */
  lemma {:induction false} ScoresFit(x: Problem, m: nat, w: nat, last: bool)
    requires Sized(x) && m <= x.patN && w <= x.wordN
    ensures Fits(Entry(x, m, w, last).score, w)
    decreases w
  {
    if w < m || w == 0 || (last && (m == 0 || !x.same(m - 1, w - 1))) {
    } else if m == 0 {
      ScoresFit(x, 0, w - 1, false);
      ChangeIsSmall(x, 0, w, false, false);
      OneStepFits(Entry(x, 0, w - 1, false).score, Change(x, 0, w, false, false), w - 1);
    } else {
      PredecessorFits(x, m, w, last, true);
      PredecessorFits(x, m, w, last, false);
      EntryUnfolds(x, m, w, last);
    }
  }

  lemma PredecessorFits(x: Problem, m: nat, w: nat, last: bool, prev: bool)
    requires Sized(x) && 0 < m <= x.patN && 0 < w <= x.wordN
    ensures var score := Entry(x, if last then m - 1 else m, w - 1, prev).score;
            && Fits(score, w - 1) && Fits(score + Change(x, m, w, last, prev), w)
            && (IsAwful(score) <==> IsAwful(score + Change(x, m, w, last, prev)))
    decreases w, 0
  {
    ScoresFit(x, if last then m - 1 else m, w - 1, prev);
    ChangeIsSmall(x, m, w, last, prev);
    OneStepFits(Entry(x, if last then m - 1 else m, w - 1, prev).score, Change(x, m, w, last, prev), w - 1);
  }

  /** An alignment is extended by one action where the characters allow it. */
  lemma Extended(x: Problem, m: nat, w: nat, prev: bool, a: Alignment, last: bool)
    requires Sized(x) && Reaches(x, m, w, prev, a) && w < x.wordN
    requires last ==> m < x.patN && x.same(m, w)
    ensures var n := if last then m + 1 else m;
            && Reaches(x, n, w + 1, last, a + [last])
            && Total(x, a + [last]) == Total(x, a) + Change(x, n, w + 1, last, prev)
  {
    var b := a + [last];
    assert b[..|b| - 1] == a && b[|b| - 1] == last;
  }

  lemma {:induction false} TotalsArePlausible(x: Problem, a: Alignment)
    requires Sized(x) && Legal(x, a)
    ensures Plausible(Total(x, a), |a|) && Matched(a) <= |a|
  {
    if a != [] {
      TotalsArePlausible(x, a[..|a| - 1]);
    }
  }

  lemma TotalUnfolds(x: Problem, a: Alignment)
    requires Sized(x) && Legal(x, a) && a != []
    ensures var prev := a[..|a| - 1];
            Total(x, a) == Total(x, prev) + Change(x, Matched(a), |a|, LastAction(a), LastAction(prev))
  {
  }

  lemma FirstRow(x: Problem, w: nat)
    requires Sized(x) && 0 < w <= x.wordN
    ensures Entry(x, 0, w, false).score == Entry(x, 0, w - 1, false).score + Change(x, 0, w, false, false)
  {
    ScoresFit(x, 0, w - 1, false);
    ChangeIsSmall(x, 0, w, false, false);
    OneStepFits(Entry(x, 0, w - 1, false).score, Change(x, 0, w, false, false), w - 1);
  }

  lemma {:induction false} NothingMatched(a: Alignment)
    requires Matched(a) == 0
    ensures !LastAction(a)
  {
  }

  /** An entry is at least what either predecessor and the last action give. */
  lemma EntryDominates(x: Problem, m: nat, w: nat, last: bool, prev: bool)
    requires Sized(x) && m <= x.patN && m <= w && 0 < w <= x.wordN
    requires last ==> m > 0 && x.same(m - 1, w - 1)
    requires m == 0 ==> !prev
    ensures Entry(x, if last then m - 1 else m, w - 1, prev).score + Change(x, m, w, last, prev)
            <= Entry(x, m, w, last).score
  {
    if m == 0 {
      FirstRow(x, w);
    } else {
      PredecessorFits(x, m, w, last, true);
      PredecessorFits(x, m, w, last, false);
      EntryUnfolds(x, m, w, last);
    }
  }

  /** The entry is an upper bound: no alignment scores higher. */
  lemma {:induction false} NothingScoresHigher(x: Problem, a: Alignment)
    requires Sized(x) && Legal(x, a)
    ensures |a| <= x.wordN && Matched(a) <= x.patN && Matched(a) <= |a|
    ensures Total(x, a) <= Entry(x, Matched(a), |a|, LastAction(a)).score
  {
    if a != [] {
      var prev, m, last := a[..|a| - 1], Matched(a), LastAction(a);
      NothingScoresHigher(x, prev);
      TotalUnfolds(x, a);
      if m == 0 {
        NothingMatched(prev);
      }
      EntryDominates(x, m, |a|, last, LastAction(prev));
    }
  }

  /** The alignment found by following Prev from an entry that is not awful. */
  ghost function Trace(x: Problem, m: nat, w: nat, last: bool): (a: Alignment)
    requires Sized(x) && m <= x.patN && w <= x.wordN
    requires !IsAwful(Entry(x, m, w, last).score)
    ensures |a| == w
    decreases w
  {
    if w == 0 then []
    else
      TraceStep(x, m, w, last);
      var e := Entry(x, m, w, last);
      Trace(x, if last then m - 1 else m, w - 1, e.prev) + [last]
  }

  /** The entry that Prev refers to is a real one, and differs by the cost of the action. */
  lemma TraceStep(x: Problem, m: nat, w: nat, last: bool)
    requires Sized(x) && m <= x.patN && 0 < w <= x.wordN
    requires !IsAwful(Entry(x, m, w, last).score)
    ensures last ==> m > 0 && x.same(m - 1, w - 1)
    ensures var e := Entry(x, m, w, last);
            var f := Entry(x, if last then m - 1 else m, w - 1, e.prev);
            !IsAwful(f.score) && e.score == f.score + Change(x, m, w, last, e.prev)
  {
    if m == 0 {
      ScoresFit(x, 0, w - 1, false);
      ChangeIsSmall(x, 0, w, false, false);
      OneStepFits(Entry(x, 0, w - 1, false).score, Change(x, 0, w, false, false), w - 1);
    } else {
      assert m <= w && (last ==> x.same(m - 1, w - 1));
      PredecessorFits(x, m, w, last, true);
      PredecessorFits(x, m, w, last, false);
      EntryUnfolds(x, m, w, last);
    }
  }

  lemma TraceUnfolds(x: Problem, m: nat, w: nat, last: bool)
    requires Sized(x) && m <= x.patN && 0 < w <= x.wordN
    requires !IsAwful(Entry(x, m, w, last).score)
    ensures (last ==> m > 0) && !IsAwful(Entry(x, if last then m - 1 else m, w - 1, Entry(x, m, w, last).prev).score)
    ensures Trace(x, m, w, last) ==
            Trace(x, if last then m - 1 else m, w - 1, Entry(x, m, w, last).prev) + [last]
  {
    TraceStep(x, m, w, last);
  }

  /** One step of walking a trace backwards, with the actions seen so far. */
  lemma TraceWalk(x: Problem, m: nat, w: nat, last: bool, seen: Alignment)
    requires Sized(x) && m <= x.patN && 0 < w <= x.wordN
    requires !IsAwful(Entry(x, m, w, last).score)
    ensures (last ==> m > 0) && !IsAwful(Entry(x, if last then m - 1 else m, w - 1, Entry(x, m, w, last).prev).score)
    ensures Trace(x, m, w, last) + seen ==
            Trace(x, if last then m - 1 else m, w - 1, Entry(x, m, w, last).prev) + ([last] + seen)
  {
    TraceUnfolds(x, m, w, last);
  }

  /** Only the empty match leaves something before the first character. */
  lemma TraceStart(x: Problem, m: nat, last: bool)
    requires Sized(x) && m <= x.patN && !IsAwful(Entry(x, m, 0, last).score)
    ensures m == 0 && !last && Entry(x, m, 0, last).score == 0 && Trace(x, m, 0, last) == []
  {
  }

  ghost predicate TraceScores(x: Problem, m: nat, w: nat, last: bool)
    requires Sized(x) && m <= x.patN && w <= x.wordN
  {
    && !IsAwful(Entry(x, m, w, last).score)
    && Reaches(x, m, w, last, Trace(x, m, w, last))
    && Total(x, Trace(x, m, w, last)) == Entry(x, m, w, last).score
  }

  lemma TraceScoresOneMore(x: Problem, m: nat, w: nat, last: bool)
    requires Sized(x) && m <= x.patN && 0 < w <= x.wordN && !IsAwful(Entry(x, m, w, last).score)
    requires last ==> m > 0
    requires TraceScores(x, if last then m - 1 else m, w - 1, Entry(x, m, w, last).prev)
    ensures TraceScores(x, m, w, last)
  {
    hide Entry, Trace, Legal, Matched, Total;
    TraceStep(x, m, w, last);
    TraceUnfolds(x, m, w, last);
    var before, prev := if last then m - 1 else m, Entry(x, m, w, last).prev;
    Extended(x, before, w - 1, prev, Trace(x, before, w - 1, prev), last);
  }

  lemma TraceScoresAtStart(x: Problem, m: nat, last: bool)
    requires Sized(x) && m <= x.patN && !IsAwful(Entry(x, m, 0, last).score)
    ensures TraceScores(x, m, 0, last)
  {
    TraceStart(x, m, last);
  }

  /** Following Prev from a real entry gives an alignment that scores exactly what the entry says. */
  lemma {:induction false} TraceIsOptimal(x: Problem, m: nat, w: nat, last: bool)
    requires Sized(x) && m <= x.patN && w <= x.wordN && !IsAwful(Entry(x, m, w, last).score)
    ensures TraceScores(x, m, w, last)
    decreases w
  {
    if w == 0 {
      TraceScoresAtStart(x, m, last);
    } else {
      TraceStep(x, m, w, last);
      TraceIsOptimal(x, if last then m - 1 else m, w - 1, Entry(x, m, w, last).prev);
      TraceScoresOneMore(x, m, w, last);
    }
  }

  /** The table is optimal: an entry is the maximum over all alignments that reach it, and it is
      awful exactly when there is none. */
  lemma EntryIsOptimal(x: Problem, m: nat, w: nat, last: bool)
    requires Sized(x) && m <= x.patN && w <= x.wordN
    ensures var score := Entry(x, m, w, last).score;
            && (forall a :: Reaches(x, m, w, last, a) ==> Total(x, a) <= score)
            && (!IsAwful(score) <==> exists a :: Reaches(x, m, w, last, a))
            && (!IsAwful(score) ==> exists a :: Reaches(x, m, w, last, a) && Total(x, a) == score)
  {
    forall a | Reaches(x, m, w, last, a)
      ensures Total(x, a) <= Entry(x, m, w, last).score
      ensures !IsAwful(Entry(x, m, w, last).score)
    {
      NothingScoresHigher(x, a);
      TotalsArePlausible(x, a);
    }
    if !IsAwful(Entry(x, m, w, last).score) {
      TraceIsOptimal(x, m, w, last);
      assert Reaches(x, m, w, last, Trace(x, m, w, last));
    }
  }

  // ---------------------------------------------------------------- the cheap check

  /** Pattern characters p.. are found in order among the word characters w.., each as early as possible. */
  predicate Greedy(x: Problem, p: nat, w: nat)
    requires p <= x.patN && w <= x.wordN
    decreases x.wordN - w
  {
    if p == x.patN then true
    else if w == x.wordN then false
    else Greedy(x, if x.same(p, w) then p + 1 else p, w + 1)
  }

  /** f gives each pattern character a place of its own, in order. */
  ghost predicate Embeds(x: Problem, f: seq<nat>) {
    && |f| == x.patN
    && (forall i :: 0 <= i < |f| ==> f[i] < x.wordN && x.same(i, f[i]))
    && (forall i, j | 0 <= i < j < |f| :: f[i] < f[j])
  }

  /** What the check finds is an alignment of the whole pattern. */
  lemma {:induction false} GreedyFindsAnAlignment(x: Problem, p: nat, w: nat, prev: bool, a: Alignment)
    returns (last: bool, b: Alignment)
    requires Sized(x) && Reaches(x, p, w, prev, a) && p <= x.patN && w <= x.wordN && Greedy(x, p, w)
    ensures Reaches(x, x.patN, x.wordN, last, b)
    decreases x.wordN - w
  {
    if w == x.wordN {
      last, b := prev, a;
    } else {
      var take := p < x.patN && x.same(p, w);
      Extended(x, p, w, prev, a, take);
      last, b := GreedyFindsAnAlignment(x, if take then p + 1 else p, w + 1, take, a + [take]);
    }
  }

  /** The word positions an alignment matches. */
  ghost function Places(a: Alignment): (f: seq<nat>)
    ensures |f| == Matched(a)
  {
    if a == [] then [] else Places(a[..|a| - 1]) + if a[|a| - 1] then [|a| - 1] else []
  }

  lemma {:induction false} PlacesAreInOrder(x: Problem, a: Alignment)
    requires Legal(x, a)
    ensures forall i :: 0 <= i < |Places(a)| ==> Places(a)[i] < |a| && x.same(i, Places(a)[i])
    ensures forall i, j | 0 <= i < j < |Places(a)| :: Places(a)[i] < Places(a)[j]
  {
    if a != [] {
      PlacesAreInOrder(x, a[..|a| - 1]);
    }
  }

  /** No embedding is missed by taking the earliest place each time. */
  lemma {:induction false} GreedyIsComplete(x: Problem, p: nat, w: nat, f: seq<nat>)
    requires Embeds(x, f) && p <= x.patN && w <= x.wordN
    requires p < x.patN ==> w <= f[p]
    ensures Greedy(x, p, w)
    decreases x.wordN - w
  {
    if p < x.patN {
      GreedyIsComplete(x, if x.same(p, w) then p + 1 else p, w + 1, f);
    }
  }

  /** The check passes exactly when an embedding exists, exactly when a final entry is not awful. */
  lemma CheapCheckIsExact(x: Problem)
    requires Sized(x)
    ensures Greedy(x, 0, 0) <==> exists f: seq<nat> :: Embeds(x, f)
    ensures Greedy(x, 0, 0) <==>
              !IsAwful(Entry(x, x.patN, x.wordN, false).score) || !IsAwful(Entry(x, x.patN, x.wordN, true).score)
  {
    if Greedy(x, 0, 0) {
      assert Reaches(x, 0, 0, false, []);
      var last, a := GreedyFindsAnAlignment(x, 0, 0, false, []);
      EntryIsOptimal(x, x.patN, x.wordN, last);
      PlacesAreInOrder(x, a);
      assert Embeds(x, Places(a));
    }
    forall last | !IsAwful(Entry(x, x.patN, x.wordN, last).score)
      ensures exists f: seq<nat> :: Embeds(x, f)
    {
      TraceIsOptimal(x, x.patN, x.wordN, last);
      PlacesAreInOrder(x, Trace(x, x.patN, x.wordN, last));
      assert Embeds(x, Places(Trace(x, x.patN, x.wordN, last)));
    }
    if f: seq<nat> :| Embeds(x, f) {
      GreedyIsComplete(x, 0, 0, f);
    }
  }

  function Max(a: int, b: int): int { if a < b then b else a }

  function Min(a: int, b: int): int { if a < b then a else b }

  function Best(x: Problem): int {
    Max(Entry(x, x.patN, x.wordN, false).score, Entry(x, x.patN, x.wordN, true).score)
  }

  /** a aligns the whole pattern with the whole word. */
  predicate Complete(x: Problem, a: Alignment) {
    Legal(x, a) && Matched(a) == x.patN && |a| == x.wordN
  }

  /** The best final entry is the best score of any complete alignment. */
  lemma BestIsBest(x: Problem)
    requires Sized(x)
    ensures forall a :: Complete(x, a) ==> Total(x, a) <= Best(x)
    ensures !IsAwful(Best(x)) <==> exists a :: Complete(x, a)
    ensures !IsAwful(Best(x)) ==> exists a :: Complete(x, a) && Total(x, a) == Best(x)
  {
    EntryIsOptimal(x, x.patN, x.wordN, false);
    EntryIsOptimal(x, x.patN, x.wordN, true);
    forall a | Complete(x, a)
      ensures Total(x, a) <= Best(x) && !IsAwful(Best(x))
    {
      assert Reaches(x, x.patN, x.wordN, LastAction(a), a);
    }
    if !IsAwful(Best(x)) {
      var last := Best(x) == Entry(x, x.patN, x.wordN, true).score;
      TraceIsOptimal(x, x.patN, x.wordN, last);
      assert Complete(x, Trace(x, x.patN, x.wordN, last));
    }
  }

  // ---------------------------------------------------------------- ties

  /** Where a and b differ for the last time, a misses and b matches. */
  ghost predicate MissesLater(a: Alignment, b: Alignment) {
    |a| == |b| && exists i :: 0 <= i < |a| && !a[i] && b[i] && a[i + 1..] == b[i + 1..]
  }

  lemma LaterStill(a: Alignment, b: Alignment, last: bool)
    requires MissesLater(a, b)
    ensures MissesLater(a + [last], b + [last])
  {
    var i :| 0 <= i < |a| && !a[i] && b[i] && a[i + 1..] == b[i + 1..];
    var c, d := a + [last], b + [last];
    assert c[i + 1..] == a[i + 1..] + [last] && d[i + 1..] == b[i + 1..] + [last];
    assert !c[i] && d[i];
  }

  /** The recorded predecessor is a match only if that is strictly better. */
  lemma PrevIsMissUnlessBetter(x: Problem, m: nat, w: nat, last: bool)
    requires Sized(x) && m <= x.patN && 0 < w <= x.wordN && !IsAwful(Entry(x, m, w, last).score)
    ensures last ==> m > 0
    ensures var before := if last then m - 1 else m;
      Entry(x, m, w, last).prev ==>
        Entry(x, before, w - 1, false).score + Change(x, m, w, last, false) < Entry(x, m, w, last).score
  {
    if m > 0 {
      assert m <= w && (last ==> x.same(m - 1, w - 1));
      PredecessorFits(x, m, w, last, true);
      PredecessorFits(x, m, w, last, false);
      EntryUnfolds(x, m, w, last);
    }
  }

  /** Of all best alignments to an entry, following Prev finds the one whose matches end earliest. */
  lemma {:induction false} TraceMissesLatest(x: Problem, m: nat, w: nat, last: bool, b: Alignment)
    requires Sized(x) && m <= x.patN && w <= x.wordN && !IsAwful(Entry(x, m, w, last).score)
    requires Reaches(x, m, w, last, b) && Total(x, b) == Entry(x, m, w, last).score
    ensures Trace(x, m, w, last) == b || MissesLater(Trace(x, m, w, last), b)
    decreases w
  {
    hide Entry, Trace, Legal, Matched, Total, MissesLater;
    if w == 0 {
      TraceStart(x, m, last);
    } else {
      var prev, before, e := b[..w - 1], if last then m - 1 else m, Entry(x, m, w, last);
      TraceUnfolds(x, m, w, last);
      TraceStep(x, m, w, last);
      ShorterReaches(x, m, w, last, b);
      TotalUnfolds(x, b);
      NothingScoresHigher(x, prev);
      PrevIsMissUnlessBetter(x, m, w, last);
      var trace := Trace(x, before, w - 1, e.prev);
      assert b == prev + [last];
      if LastAction(prev) == e.prev {
        TraceMissesLatest(x, before, w - 1, e.prev, prev);
        if trace != prev {
          LaterStill(trace, prev, last);
        }
      } else {
        TraceIsOptimal(x, before, w - 1, e.prev);
        LastDiffers(trace, prev);
        LaterStill(trace, prev, last);
      }
    }
  }

  lemma ShorterReaches(x: Problem, m: nat, w: nat, last: bool, b: Alignment)
    requires Reaches(x, m, w, last, b) && w > 0
    ensures last ==> m > 0
    ensures Reaches(x, if last then m - 1 else m, w - 1, LastAction(b[..w - 1]), b[..w - 1])
  {
  }

  lemma LastDiffers(a: Alignment, b: Alignment)
    requires |a| == |b| && !LastAction(a) && LastAction(b)
    ensures MissesLater(a, b)
  {
    assert !a[|a| - 1] && b[|a| - 1] && a[|a|..] == b[|a|..];
  }

  /** No other best alignment of the whole pattern is preferred: at the last place where they differ
      this one has left the character unmatched. */
  ghost predicate EarliestBest(x: Problem, a: Alignment) {
    && Complete(x, a) && Total(x, a) == Best(x)
    && forall b :: Complete(x, b) && Total(x, b) == Best(x) ==> b == a || MissesLater(a, b)
  }

  lemma FinalTraceIsEarliest(x: Problem, final: bool)
    requires Sized(x) && !IsAwful(Best(x))
    requires final <==> Entry(x, x.patN, x.wordN, true).score > Entry(x, x.patN, x.wordN, false).score
    ensures !IsAwful(Entry(x, x.patN, x.wordN, final).score)
    ensures EarliestBest(x, Trace(x, x.patN, x.wordN, final))
  {
    hide Entry, Trace, Legal, Matched, Total, MissesLater;
    TraceIsOptimal(x, x.patN, x.wordN, final);
    var a := Trace(x, x.patN, x.wordN, final);
    forall b | Complete(x, b) && Total(x, b) == Best(x)
      ensures b == a || MissesLater(a, b)
    {
      NothingScoresHigher(x, b);
      assert Reaches(x, x.patN, x.wordN, LastAction(b), b);
      if LastAction(b) == final {
        TraceMissesLatest(x, x.patN, x.wordN, final, b);
      } else {
        LastDiffers(a, b);
      }
    }
  }
}
