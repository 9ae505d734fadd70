/** The bounded set of best completion candidates, and that it refines "sort everything, take N". */
module Ranking {
  import opened ByteText
  import opened SortKeys
  import opened Heaps

  /** Numeric limit of size_t. */
  const UNBOUNDED := 0x1_0000_0000_0000_0000 - 1

  /** What was kept and what was dropped account for everything pushed, and nothing dropped beats anything kept. */
  ghost predicate KeepsBest(kept: seq<Candidate>, dropped: multiset<Candidate>, pushed: multiset<Candidate>, n: nat) {
    && multiset(kept) + dropped == pushed
    && |kept| == (if |pushed| <= n then |pushed| else n)
    && forall c, d :: c in kept && d in dropped ==> !Greater(d, c)
  }

  class TopN {
    const n: nat
    var heap: seq<Candidate>
    ghost var dropped: multiset<Candidate>
    ghost var pushed: multiset<Candidate>

    constructor (n: nat)
      ensures Valid() && this.n == n && pushed == multiset{} && heap == []
    {
      this.n := n;
      heap, dropped, pushed := [], multiset{}, multiset{};
    }

    ghost predicate Valid()
      reads this
    {
      IsHeap(heap) && KeepsBest(heap, dropped, pushed, n)
    }

    /** Reports a drop exactly when more than n candidates have been pushed. */
    method Push(v: Candidate) returns (drop: bool)
      requires Valid()
      modifies this
      ensures Valid() && pushed == old(pushed) + multiset{v}
      ensures drop <==> |pushed| > n
    {
      hide KeepsBest, Greater, IsHeap;
      KeptSize(heap, dropped, pushed, n);
      drop := false;
      if |heap| >= n {
        drop := true;
        forall k | 0 <= k < |heap| ensures !Greater(heap[0], heap[k]) { FrontIsWorst(heap, k); }
        if n > 0 && Greater(v, heap[0]) {
          var popped := PopHeap(heap);
          ghost var worst, kept := heap[0], popped[..|heap| - 1];
          SplitLast(popped);
          ReplacingWorstKeepsBest(heap, kept, worst, v, dropped, pushed, n);
          var replaced := popped[|popped| - 1 := v];
          assert replaced == kept + [v] && replaced[..|replaced| - 1] == kept;
          heap := PushHeap(replaced);
          dropped, pushed := dropped + multiset{worst}, pushed + multiset{v};
          SameElementsKeepBest(replaced, heap, dropped, pushed, n);
        } else {
          DroppingKeepsBest(heap, v, dropped, pushed, n);
          dropped, pushed := dropped + multiset{v}, pushed + multiset{v};
        }
      } else {
        var longer := heap + [v];
        assert longer[..|longer| - 1] == heap;
        AppendingKeepsBest(heap, v, dropped, pushed, n);
        heap := PushHeap(longer);
        pushed := pushed + multiset{v};
        SameElementsKeepBest(longer, heap, dropped, pushed, n);
      }
    }

    /** Best first; the heap is given away. */
    method Items() returns (r: seq<Candidate>)
      requires Valid()
      modifies this
      ensures Ranked(r) && KeepsBest(r, dropped, pushed, n) && pushed == old(pushed)
    {
      r := SortHeap(heap);
      SameElementsKeepBest(heap, r, dropped, pushed, n);
      heap := r;
    }
  }

  lemma SameElementsKeepBest(kept: seq<Candidate>, r: seq<Candidate>, dropped: multiset<Candidate>,
                             pushed: multiset<Candidate>, n: nat)
    requires KeepsBest(kept, dropped, pushed, n) && multiset(r) == multiset(kept)
    ensures KeepsBest(r, dropped, pushed, n)
  {
    assert |r| == |multiset(r)| == |kept|;
    forall c | c in r ensures c in kept { assert c in multiset(r); }
  }

  lemma KeptSize(kept: seq<Candidate>, dropped: multiset<Candidate>, pushed: multiset<Candidate>, n: nat)
    requires KeepsBest(kept, dropped, pushed, n)
    ensures |kept| <= n && (|kept| >= n <==> |pushed| >= n)
  {
  }

  lemma SplitLast(s: seq<Candidate>)
    requires s != []
    ensures multiset(s) == multiset(s[..|s| - 1]) + multiset{s[|s| - 1]}
  {
    assert s == s[..|s| - 1] + [s[|s| - 1]];
  }

  lemma AppendingKeepsBest(kept: seq<Candidate>, v: Candidate, dropped: multiset<Candidate>,
                           pushed: multiset<Candidate>, n: nat)
    requires KeepsBest(kept, dropped, pushed, n) && |kept| < n
    ensures KeepsBest(kept + [v], dropped, pushed + multiset{v}, n)
  {
    hide Greater;
    assert |multiset(kept)| == |pushed|;
    assert |dropped| == 0;
    assert multiset(kept + [v]) == multiset(kept) + multiset{v};
  }

  lemma DroppingKeepsBest(kept: seq<Candidate>, v: Candidate, dropped: multiset<Candidate>,
                          pushed: multiset<Candidate>, n: nat)
    requires KeepsBest(kept, dropped, pushed, n) && |kept| >= n
    requires n > 0 ==> !Greater(v, kept[0]) && forall k :: 0 <= k < |kept| ==> !Greater(kept[0], kept[k])
    ensures KeepsBest(kept, dropped + multiset{v}, pushed + multiset{v}, n)
  {
    forall c, d | c in kept && d in dropped + multiset{v} ensures !Greater(d, c) {
      if d !in dropped { NotGreaterIsTransitive(v, kept[0], c); }
    }
  }

  lemma ReplacingWorstKeepsBest(before: seq<Candidate>, kept: seq<Candidate>, worst: Candidate, v: Candidate,
                                dropped: multiset<Candidate>, pushed: multiset<Candidate>, n: nat)
    requires KeepsBest(before, dropped, pushed, n) && multiset(before) == multiset(kept) + multiset{worst}
    requires n > 0 && |before| == n && Greater(v, worst) && forall k :: 0 <= k < |before| ==> !Greater(worst, before[k])
    ensures KeepsBest(kept + [v], dropped + multiset{worst}, pushed + multiset{v}, n)
  {
    var r := kept + [v];
    assert multiset(r) == multiset(kept) + multiset{v};
    assert |multiset(before)| == |multiset(kept)| + 1;
    assert worst in multiset(before);
    hide Greater;
    GreaterIsTotal(v, worst);
    forall c, d | c in r && d in dropped + multiset{worst} ensures !Greater(d, c) {
      if c in kept { assert c in multiset(kept) && c in multiset(before); }
      if d in dropped { NotGreaterIsTransitive(d, worst, v); }
    }
  }

  // ---------------------------------------------------------------- refinement of sorting

  lemma {:induction false} RankedHeadIsBest(s: seq<Candidate>, c: Candidate)
    requires Ranked(s) && c in s
    ensures !Greater(c, s[0])
  {
    var k :| 0 <= k < |s| && s[k] == c;
    if k == 0 { GreaterIsTotal(c, c); }
  }

  /** The rank of a candidate: what the comparator looks at. */
  datatype Rank = Rank(value: int, name: Bytes)

  function RankOf(c: Candidate): Rank { Rank(Value(c.score), c.name) }

  function Ranks(s: seq<Candidate>): (r: seq<Rank>)
    ensures |r| == |s|
    ensures forall i :: 0 <= i < |s| ==> r[i] == RankOf(s[i])
  {
    if s == [] then [] else [RankOf(s[0])] + Ranks(s[1..])
  }

  lemma RanksJoin(s: seq<Candidate>, t: seq<Candidate>)
    ensures Ranks(s + t) == Ranks(s) + Ranks(t)
  {
    hide RankOf;
  }

  lemma HeadRank(s: seq<Candidate>)
    requires s != []
    ensures multiset(Ranks(s)) == multiset{RankOf(s[0])} + multiset(Ranks(s[1..]))
    ensures Ranks(s) == [RankOf(s[0])] + Ranks(s[1..])
  {
    hide RankOf;
  }

  lemma RemovedRank(a: seq<Candidate>, c: Candidate, d: seq<Candidate>)
    ensures multiset(Ranks(a + ([c] + d))) == multiset{RankOf(c)} + multiset(Ranks(a + d))
    ensures multiset(a + ([c] + d)) == multiset{c} + multiset(a + d)
  {
    hide RankOf, Ranks;
    RanksJoin(a, [c] + d);
    RanksJoin(a, d);
    HeadRank([c] + d);
    assert ([c] + d)[1..] == d;
  }

  lemma {:induction false} RanksFollowElements(s: seq<Candidate>, t: seq<Candidate>)
    requires multiset(s) == multiset(t)
    ensures multiset(Ranks(s)) == multiset(Ranks(t))
    decreases |s|
  {
    hide RankOf, Ranks;
    if s == [] {
      assert |multiset(t)| == 0;
      assert t == [];
    } else {
      var a, d := Located(t, s[0], s);
      RemovedRank(a, s[0], d);
      RemovedRank([], s[0], s[1..]);
      assert [] + ([s[0]] + s[1..]) == s && [] + s[1..] == s[1..];
      Cancel(s[0], multiset(s[1..]), multiset(a + d));
      RanksFollowElements(s[1..], a + d);
    }
  }

  lemma Cancel<T>(c: T, x: multiset<T>, y: multiset<T>)
    requires multiset{c} + x == multiset{c} + y
    ensures x == y
  {
    assert x == multiset{c} + x - multiset{c};
    assert y == multiset{c} + y - multiset{c};
  }

  lemma Located(t: seq<Candidate>, c: Candidate, s: seq<Candidate>) returns (a: seq<Candidate>, d: seq<Candidate>)
    requires c in s && multiset(s) == multiset(t)
    ensures t == a + ([c] + d)
  {
    assert c in multiset(t);
    var k :| 0 <= k < |t| && t[k] == c;
    a, d := t[..k], t[k + 1..];
  }

  lemma SameSize(s: seq<Candidate>, t: seq<Candidate>)
    requires multiset(Ranks(s)) == multiset(Ranks(t))
    ensures |s| == |t|
  {
    hide Ranks;
    assert |multiset(Ranks(s))| == |s|;
    assert |multiset(Ranks(t))| == |t|;
  }

  /** Two rankings of the same ranks are the same, place by place. */
  lemma {:induction false} RankingIsUnique(s: seq<Candidate>, t: seq<Candidate>)
    requires Ranked(s) && Ranked(t) && multiset(Ranks(s)) == multiset(Ranks(t))
    ensures Ranks(s) == Ranks(t)
    decreases |s|
  {
    hide Ranks, RankOf, Greater;
    SameSize(s, t);
    if s == [] {
      assert t == [];
    } else {
      HeadsTie(s, t);
      HeadRank(s);
      HeadRank(t);
      assert multiset(Ranks(s[1..])) == multiset(Ranks(s)) - multiset{RankOf(s[0])};
      assert multiset(Ranks(t[1..])) == multiset(Ranks(t)) - multiset{RankOf(t[0])};
      RankingIsUnique(s[1..], t[1..]);
    }
  }

  lemma RankIsReached(s: seq<Candidate>, r: Rank) returns (k: nat)
    requires r in multiset(Ranks(s))
    ensures k < |s| && RankOf(s[k]) == r
  {
    hide RankOf;
    k :| 0 <= k < |Ranks(s)| && Ranks(s)[k] == r;
  }

  lemma HeadsTie(s: seq<Candidate>, t: seq<Candidate>)
    requires s != [] && t != [] && Ranked(s) && Ranked(t) && multiset(Ranks(s)) == multiset(Ranks(t))
    ensures RankOf(s[0]) == RankOf(t[0])
  {
    hide Ranks, Greater, Value;
    assert Ranks(s)[0] in multiset(Ranks(t)) && Ranks(t)[0] in multiset(Ranks(s));
    var i := RankIsReached(t, RankOf(s[0]));
    var j := RankIsReached(s, RankOf(t[0]));
    RankedHeadIsBest(t, t[i]);
    RankedHeadIsBest(s, s[j]);
    SameRankSameOrder(t[i], s[0], t[0]);
    SameRankSameOrder(s[j], t[0], s[0]);
    GreaterIsTotal(s[0], t[0]);
  }

  lemma SameRankSameOrder(a: Candidate, b: Candidate, c: Candidate)
    requires RankOf(a) == RankOf(b)
    ensures Greater(a, c) <==> Greater(b, c)
  {
  }

  lemma PlacedInOrder(s: seq<Candidate>, c: Candidate, k: nat)
    requires Ranked(s) && k <= |s|
    requires forall i :: 0 <= i < k ==> !Greater(c, s[i])
    requires forall i :: k <= i < |s| ==> !Greater(s[i], c)
    ensures Ranked(s[..k] + ([c] + s[k..])) && multiset(s[..k] + ([c] + s[k..])) == multiset(s) + multiset{c}
  {
    hide Greater;
    var r := s[..k] + ([c] + s[k..]);
    assert s == s[..k] + s[k..];
    forall i, j | 0 <= i < j < |r| ensures !Greater(r[j], r[i]) {
      assert i < k ==> r[i] == s[i];
      assert i > k ==> r[i] == s[i - 1];
      assert j < k ==> r[j] == s[j];
      assert j > k ==> r[j] == s[j - 1];
    }
  }

  lemma BeatsTheRest(s: seq<Candidate>, c: Candidate, k: nat)
    requires Ranked(s) && k < |s| && Greater(c, s[k])
    ensures forall i :: k <= i < |s| ==> !Greater(s[i], c)
  {
    hide Greater;
    GreaterIsTotal(c, s[k]);
    forall i | k < i < |s| ensures !Greater(s[i], c) {
      NotGreaterIsTransitive(s[i], s[k], c);
    }
  }

  /** A ranking stays one with a further candidate put behind all that it does not beat. */
  lemma {:induction false} RankedWithOneMore(s: seq<Candidate>, c: Candidate, k: nat) returns (r: seq<Candidate>)
    requires Ranked(s) && k <= |s| && forall i :: 0 <= i < k ==> !Greater(c, s[i])
    ensures Ranked(r) && multiset(r) == multiset(s) + multiset{c}
    decreases |s| - k
  {
    hide Greater, Ranked;
    if k < |s| && !Greater(c, s[k]) {
      r := RankedWithOneMore(s, c, k + 1);
    } else {
      if k < |s| { BeatsTheRest(s, c, k); }
      PlacedInOrder(s, c, k);
      r := s[..k] + ([c] + s[k..]);
    }
  }

  /** Every multiset of candidates can be ranked. */
  lemma {:induction false} CanBeRanked(m: multiset<Candidate>) returns (s: seq<Candidate>)
    ensures Ranked(s) && multiset(s) == m
    decreases |m|
  {
    if m == multiset{} {
      s := [];
    } else {
      var c :| c in m;
      s := CanBeRanked(m - multiset{c});
      s := RankedWithOneMore(s, c, 0);
    }
  }

  /** What is kept has, place by place, the ranks that sorting everything puts first. */
  lemma KeptIsTheSortedPrefix(kept: seq<Candidate>, dropped: multiset<Candidate>, n: nat, sorted: seq<Candidate>)
    requires KeepsBest(kept, dropped, multiset(sorted), n) && Ranked(kept) && Ranked(sorted)
    ensures |kept| <= |sorted| && Ranks(kept) == Ranks(sorted[..|kept|])
  {
    hide Ranks, RankOf, Greater;
    var rest := CanBeRanked(dropped);
    var all := kept + rest;
    assert multiset(all) == multiset(sorted);
    KeptThenRestIsRanked(kept, rest);
    RanksFollowElements(all, sorted);
    RankingIsUnique(all, sorted);
    PrefixRanks(kept, rest, sorted);
  }

  lemma KeptThenRestIsRanked(kept: seq<Candidate>, rest: seq<Candidate>)
    requires Ranked(kept) && Ranked(rest) && forall c, d :: c in kept && d in multiset(rest) ==> !Greater(d, c)
    ensures Ranked(kept + rest)
  {
    hide Greater;
    var all := kept + rest;
    forall i, j | 0 <= i < j < |all| ensures !Greater(all[j], all[i]) {
      if i < |kept| && j >= |kept| {
        assert rest[j - |kept|] in multiset(rest) && kept[i] in kept;
      }
    }
  }

  lemma PrefixRanks(kept: seq<Candidate>, rest: seq<Candidate>, sorted: seq<Candidate>)
    requires Ranks(kept + rest) == Ranks(sorted)
    ensures |kept| <= |sorted| && Ranks(kept) == Ranks(sorted[..|kept|])
  {
    hide RankOf, Ranks;
    assert |Ranks(sorted)| == |kept + rest|;
    forall i | 0 <= i < |kept| ensures Ranks(kept)[i] == Ranks(sorted[..|kept|])[i] {
      assert Ranks(kept + rest)[i] == Ranks(sorted)[i] && (kept + rest)[i] == kept[i];
    }
  }

  lemma PrefixGrows(s: seq<Candidate>, i: nat)
    requires i < |s|
    ensures multiset(s[..i + 1]) == multiset(s[..i]) + multiset{s[i]} && |multiset(s[..i + 1])| == i + 1
  {
    assert s[..i + 1] == s[..i] + [s[i]];
  }

  /** Every candidate that matched, pushed in turn; 0 for a limit means none. */
  method MergeResults(limit: nat, candidates: seq<Candidate>) returns (items: seq<Candidate>, incomplete: bool)
    ensures var n := if limit == 0 then UNBOUNDED else limit;
      && Ranked(items)
      && (incomplete <==> |candidates| > n)
      && |items| == (if |candidates| <= n then |candidates| else n)
      && (exists dropped :: KeepsBest(items, dropped, multiset(candidates), n))
    ensures forall sorted :: Ranked(sorted) && multiset(sorted) == multiset(candidates) ==>
      |items| <= |sorted| && Ranks(items) == Ranks(sorted[..|items|])
  {
    hide Greater, IsHeap, Ranked, Ranks;
    var n := if limit == 0 then UNBOUNDED else limit;
    var top := new TopN(n);
    incomplete := false;
    var i := 0;
    while i < |candidates|
      invariant i <= |candidates| && top.Valid() && fresh(top) && top.n == n
      invariant top.pushed == multiset(candidates[..i]) && (incomplete <==> i > n)
    {
      var drop := top.Push(candidates[i]);
      PrefixGrows(candidates, i);
      incomplete := incomplete || drop;
      i := i + 1;
    }
    assert candidates[..|candidates|] == candidates;
    items := top.Items();
    assert |multiset(candidates)| == |candidates|;
    assert KeepsBest(items, top.dropped, multiset(candidates), n);
    forall sorted | Ranked(sorted) && multiset(sorted) == multiset(candidates)
      ensures |items| <= |sorted| && Ranks(items) == Ranks(sorted[..|items|])
    {
      KeptIsTheSortedPrefix(items, top.dropped, n, sorted);
    }
  }

  /** The order in which an LSP client sorts the items, byte-wise by their sort keys, is the order they were ranked in. */
  lemma RankedItemsAreInSortTextOrder(items: seq<Candidate>, i: nat, j: nat)
    requires Ranked(items) && i < j < |items|
    ensures !TextLess(SortText(items[j].score, items[j].name), SortText(items[i].score, items[i].name))
  {
    SortTextRanks(items[j].score, items[j].name, items[i].score, items[i].name);
  }
}
