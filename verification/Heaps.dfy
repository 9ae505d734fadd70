/** Completion candidates in order, and the standard library's heap operations on them. */
module Heaps {
  import opened ByteText
  import opened SortKeys

  /** A final score that is no NaN. */
  type Score = u: Bits | !IsNaN(u)

  /** `id` stands for the Sema and index results. */
  datatype Candidate = Candidate(score: Score, name: Bytes, id: nat)

  predicate Greater(l: Candidate, r: Candidate) {
    Better(l.score, l.name, r.score, r.name)
  }

  /** Neither beats the other. */
  predicate Tied(l: Candidate, r: Candidate) {
    Value(l.score) == Value(r.score) && l.name == r.name
  }

  lemma GreaterIsTotal(a: Candidate, b: Candidate)
    ensures Greater(a, b) || Greater(b, a) || Tied(a, b)
    ensures Greater(a, b) ==> !Greater(b, a) && !Tied(a, b)
    ensures Tied(a, b) ==> !Greater(a, b) && !Greater(b, a)
  {
    TextOrderIsTotal(a.name, b.name);
    if TextLess(a.name, b.name) { TextOrderIsStrict(a.name, b.name); }
    if TextLess(b.name, a.name) { TextOrderIsStrict(b.name, a.name); }
  }

  /** "Not better than" is transitive: scores and names are both totally ordered. */
  lemma NotGreaterIsTransitive(a: Candidate, b: Candidate, c: Candidate)
    requires !Greater(a, b) && !Greater(b, c)
    ensures !Greater(a, c)
  {
    if Value(a.score) == Value(b.score) == Value(c.score) {
      TextOrderIsTotal(a.name, b.name);
      TextOrderIsTotal(b.name, c.name);
      if TextLess(a.name, c.name) {
        if TextLess(b.name, a.name) { TextOrderIsTransitive(b.name, a.name, c.name); }
      }
    }
  }

  // ---------------------------------------------------------------- heaps, as the standard library keeps them

  function Parent(k: nat): nat
    requires k > 0
  {
    (k - 1) / 2
  }

  /** No parent beats its child, so the front is the worst. */
  predicate HeapLink(h: seq<Candidate>, k: nat)
    requires 0 < k < |h|
  {
    !Greater(h[Parent(k)], h[k])
  }

  predicate IsHeap(h: seq<Candidate>) {
    forall k :: 0 < k < |h| ==> HeapLink(h, k)
  }

  lemma {:induction false} FrontIsWorst(h: seq<Candidate>, k: nat)
    requires IsHeap(h) && k < |h|
    ensures !Greater(h[0], h[k])
    decreases k
  {
    if k == 0 {
      GreaterIsTotal(h[0], h[0]);
    } else {
      FrontIsWorst(h, Parent(k));
      assert HeapLink(h, k);
      NotGreaterIsTransitive(h[0], h[Parent(k)], h[k]);
    }
  }

  function Swapped(h: seq<Candidate>, i: nat, j: nat): (r: seq<Candidate>)
    requires i < |h| && j < |h|
    ensures |r| == |h|
  {
    h[i := h[j]][j := h[i]]
  }

  lemma SwapPermutes(h: seq<Candidate>, i: nat, j: nat)
    requires i < j < |h|
    ensures multiset(Swapped(h, i, j)) == multiset(h)
  {
  }

  /** A heap but for the link above i, and the parent of i beats no child of i. */
  predicate LooseAbove(h: seq<Candidate>, i: nat) {
    && (forall k :: 0 < k < |h| && k != i ==> HeapLink(h, k))
    && (forall k :: 0 < k < |h| && Parent(k) == i && i > 0 ==> !Greater(h[Parent(i)], h[k]))
  }

  lemma MovedUp(h: seq<Candidate>, i: nat)
    requires 0 < i < |h| && LooseAbove(h, i) && Greater(h[Parent(i)], h[i])
    ensures LooseAbove(Swapped(h, Parent(i), i), Parent(i))
  {
    var p := Parent(i);
    var r := Swapped(h, p, i);
    GreaterIsTotal(h[p], h[i]);
    forall k | 0 < k < |h| && k != p ensures HeapLink(r, k) {
      if k == i {
      } else if Parent(k) == i {
      } else if Parent(k) == p {
        assert HeapLink(h, k);
        NotGreaterIsTransitive(h[i], h[p], h[k]);
      } else {
        assert HeapLink(h, k);
      }
    }
    forall k | 0 < k < |h| && Parent(k) == p && p > 0 ensures !Greater(r[Parent(p)], r[k]) {
      assert HeapLink(h, p);
      if k != i {
        assert HeapLink(h, k);
        NotGreaterIsTransitive(h[Parent(p)], h[p], h[k]);
      }
    }
  }

  /** std::push_heap: everything but the last is a heap. */
  method PushHeap(h: seq<Candidate>) returns (r: seq<Candidate>)
    requires h != [] && IsHeap(h[..|h| - 1])
    ensures IsHeap(r) && multiset(r) == multiset(h)
  {
    r := h;
    var i := |h| - 1;
    forall k | 0 < k < |h| && k != i ensures HeapLink(r, k) {
      assert HeapLink(h[..|h| - 1], k);
    }
    while i > 0 && Greater(r[Parent(i)], r[i])
      invariant 0 <= i < |r| == |h| && multiset(r) == multiset(h) && LooseAbove(r, i)
      decreases i
    {
      MovedUp(r, i);
      SwapPermutes(r, Parent(i), i);
      r := Swapped(r, Parent(i), i);
      i := Parent(i);
    }
  }

  /** A heap but for the links below i, and the parent of i beats no child of i. */
  predicate LooseBelow(h: seq<Candidate>, i: nat) {
    && (forall k :: 0 < k < |h| && Parent(k) != i ==> HeapLink(h, k))
    && (forall k :: 0 < k < |h| && Parent(k) == i && i > 0 ==> !Greater(h[Parent(i)], h[k]))
  }

  /** The worse child of i. */
  function WorseChild(h: seq<Candidate>, i: nat): (c: nat)
    requires 2 * i + 1 < |h|
    ensures c < |h| && c > 0 && Parent(c) == i
    ensures forall k :: 0 < k < |h| && Parent(k) == i ==> !Greater(h[c], h[k])
  {
    var c := if 2 * i + 2 < |h| && Greater(h[2 * i + 1], h[2 * i + 2]) then 2 * i + 2 else 2 * i + 1;
    assert forall k :: 0 < k < |h| && Parent(k) == i ==> k == 2 * i + 1 || k == 2 * i + 2;
    GreaterIsTotal(h[c], h[c]);
    if 2 * i + 2 < |h| then GreaterIsTotal(h[2 * i + 1], h[2 * i + 2]); c else c
  }

  lemma MovedDown(h: seq<Candidate>, i: nat)
    requires 2 * i + 1 < |h| && LooseBelow(h, i) && Greater(h[i], h[WorseChild(h, i)])
    ensures LooseBelow(Swapped(h, i, WorseChild(h, i)), WorseChild(h, i))
  {
    var c := WorseChild(h, i);
    var r := Swapped(h, i, c);
    GreaterIsTotal(h[i], h[c]);
    forall k | 0 < k < |h| && Parent(k) != c ensures HeapLink(r, k) {
      if Parent(k) == i {
        assert !Greater(h[c], h[k]);
      } else if k == i {
        assert !Greater(h[Parent(i)], h[c]);
      } else {
        assert HeapLink(h, k);
      }
    }
    forall k | 0 < k < |h| && Parent(k) == c ensures !Greater(r[Parent(c)], r[k]) {
      assert HeapLink(h, k);
    }
  }

  method SiftDown(h: seq<Candidate>) returns (r: seq<Candidate>)
    requires LooseBelow(h, 0)
    ensures IsHeap(r) && multiset(r) == multiset(h) && |r| == |h|
  {
    r := h;
    var i := 0;
    while 2 * i + 1 < |r| && Greater(r[i], r[WorseChild(r, i)])
      invariant |r| == |h| && multiset(r) == multiset(h) && LooseBelow(r, i)
      decreases |r| - i
    {
      var c := WorseChild(r, i);
      MovedDown(r, i);
      SwapPermutes(r, i, c);
      r := Swapped(r, i, c);
      i := c;
    }
    forall k | 0 < k < |r| ensures HeapLink(r, k) {
      if Parent(k) == i {
        var c := WorseChild(r, i);
        NotGreaterIsTransitive(r[i], r[c], r[k]);
      }
    }
  }

  /** std::pop_heap: the front, which is the worst, goes last, and the rest is a heap again. */
  method PopHeap(h: seq<Candidate>) returns (r: seq<Candidate>)
    requires h != [] && IsHeap(h)
    ensures |r| == |h| && multiset(r) == multiset(h)
    ensures r[|h| - 1] == h[0] && IsHeap(r[..|h| - 1])
    ensures forall c :: c in h ==> !Greater(r[|h| - 1], c)
  {
    var last := |h| - 1;
    forall k | 0 <= k < |h| ensures !Greater(h[0], h[k]) { FrontIsWorst(h, k); }
    if last == 0 { return h; }
    SwapPermutes(h, 0, last);
    var swapped := Swapped(h, 0, last);
    var rest := swapped[..last];
    forall k | 0 < k < |rest| && Parent(k) != 0 ensures HeapLink(rest, k) {
      assert HeapLink(h, k);
    }
    assert swapped == rest + [h[0]];
    var sifted := SiftDown(rest);
    r := sifted + [h[0]];
    assert multiset(r) == multiset(sifted) + multiset{h[0]};
    assert r[..last] == sifted;
  }

  /** Best first. */
  predicate Ranked(s: seq<Candidate>) {
    forall i, j :: 0 <= i < j < |s| ==> !Greater(s[j], s[i])
  }

  /** std::sort_heap: pops over ever shorter prefixes. */
  method SortHeap(h: seq<Candidate>) returns (r: seq<Candidate>)
    requires IsHeap(h)
    ensures Ranked(r) && multiset(r) == multiset(h)
  {
    r := h;
    var n := |h|;
    assert r[..n] == r;
    while n > 1
      invariant n <= |r| == |h| && multiset(r) == multiset(h)
      invariant IsHeap(r[..n]) && Ranked(r[n..])
      invariant forall c, d :: c in r[..n] && d in r[n..] ==> !Greater(d, c)
    {
      ghost var before := r;
      var popped := PopHeap(r[..n]);
      assert before == before[..n] + before[n..];
      r := popped + r[n..];
      n := n - 1;
      assert multiset(r) == multiset(popped) + multiset(before[n + 1..]);
      PopExtends(before, n + 1, popped);
    }
    if n == 1 {
      assert r == r[..1] + r[1..];
      forall i, j | 0 <= i < j < |r| ensures !Greater(r[j], r[i]) {
        assert r[j] == r[1..][j - 1] && r[j] in r[1..];
        if i == 0 { assert r[0] in r[..1]; } else { assert r[i] == r[1..][i - 1]; }
      }
    } else {
      assert r[0..] == r;
    }
  }

  lemma PopExtends(before: seq<Candidate>, n: nat, popped: seq<Candidate>)
    requires 0 < n <= |before| && |popped| == n && multiset(popped) == multiset(before[..n]) && IsHeap(popped[..n - 1])
    requires forall c :: c in before[..n] ==> !Greater(popped[n - 1], c)
    requires Ranked(before[n..]) && forall c, d :: c in before[..n] && d in before[n..] ==> !Greater(d, c)
    ensures var r := popped + before[n..];
      && IsHeap(r[..n - 1]) && Ranked(r[n - 1..])
      && (forall c, d :: c in r[..n - 1] && d in r[n - 1..] ==> !Greater(d, c))
  {
    var r := popped + before[n..];
    assert r[..n - 1] == popped[..n - 1];
    assert r[n - 1..] == [popped[n - 1]] + before[n..];
    forall c | c in popped ensures c in before[..n] {
      assert c in multiset(popped);
    }
    assert popped[n - 1] in popped;
    forall c, d | c in r[..n - 1] && d in r[n - 1..] ensures !Greater(d, c) {
      assert c in popped;
    }
  }
}
