/** The sweep over one file's edit intervals that clang-tidy uses to find conflicting fixes. */
module SweepLine {
  /** A non-empty edit [begin, end) of error number `id`, whose edits have total length `size`. */
  datatype Interval = Interval(begin: nat, end: nat, id: nat, size: nat)

  datatype EventType = Begin | End

  /** std::tuple<unsigned, EventType, int, int, unsigned> with ET_Begin = 1, ET_End = -1. */
  datatype Priority = Priority(position: nat, kind: int, complement: int, weight: int, id: nat)

  datatype Event = Event(kind: EventType, id: nat, priority: Priority)

  /** An unsigned 32-bit value stored in an int. */
  function ToInt(x: int): int {
    var u := x % 0x1_0000_0000;
    if u < 0x8000_0000 then u else u - 0x1_0000_0000
  }

  function EventOf(i: Interval, kind: EventType): Event {
    match kind
    case Begin => Event(Begin, i.id, Priority(i.begin, 1, ToInt(0 - i.end), ToInt(0 - i.size), i.id))
    case End => Event(End, i.id, Priority(i.end, -1, ToInt(0 - i.begin), ToInt(i.size), i.id))
  }

  /** Lexicographic comparison of the tuples. */
  predicate Less(x: Event, y: Event) {
    var p, q := x.priority, y.priority;
    if p.position != q.position then p.position < q.position
    else if p.kind != q.kind then p.kind < q.kind
    else if p.complement != q.complement then p.complement < q.complement
    else if p.weight != q.weight then p.weight < q.weight
    else p.id < q.id
  }

  /** Offsets and sizes that an int can hold. */
  predicate InRange(i: Interval) {
    i.begin < i.end < 0x8000_0000 && i.size < 0x8000_0000
  }

  lemma IntRoundTrip(x: int)
    requires -0x8000_0000 <= x < 0x8000_0000
    ensures ToInt(x) == x
  {
  }

  lemma PriorityOf(i: Interval)
    requires InRange(i)
    ensures EventOf(i, Begin).priority == Priority(i.begin, 1, 0 - i.end, 0 - i.size, i.id)
    ensures EventOf(i, End).priority == Priority(i.end, -1, 0 - i.begin, i.size, i.id)
  {
    IntRoundTrip(0 - i.end);
    IntRoundTrip(0 - i.size);
    IntRoundTrip(0 - i.begin);
    IntRoundTrip(i.size);
  }

  // ---------------------------------------------------------------- the declarative condition

  predicate Overlap(i: Interval, j: Interval) {
    i.begin < j.end && j.begin < i.end
  }

  predicate StrictlyInside(j: Interval, i: Interval) {
    i.begin <= j.begin && j.end <= i.end && (i.begin != j.begin || i.end != j.end)
  }

  predicate Equal(i: Interval, j: Interval) {
    i.begin == j.begin && i.end == j.end
  }

  /** j overlaps i and is neither strictly inside it nor an equal edit of a smaller error. */
  predicate Conflicts(i: Interval, j: Interval) {
    i != j && Overlap(i, j) && !StrictlyInside(j, i) && !(Equal(i, j) && j.size < i.size)
  }

  /** All intervals of one file: in range, one size per error, disjoint within an error. */
  ghost predicate Coherent(s: set<Interval>) {
    && (forall i | i in s :: InRange(i))
    && (forall i, j | i in s && j in s && i.id == j.id :: i.size == j.size && (i == j || !Overlap(i, j)))
  }

  /** Interval j is open when the event of i is processed. */
  predicate OpenAt(j: Interval, i: Interval, kind: EventType) {
    Less(EventOf(j, Begin), EventOf(i, kind)) && Less(EventOf(i, kind), EventOf(j, End))
  }

  /** The tie-breaks of the event order make "something else is open at my begin or at my end" mean
      exactly "something conflicts with me". */
  lemma OpenMeansConflict(s: set<Interval>, i: Interval, j: Interval)
    requires Coherent(s) && i in s && j in s && i != j
    ensures OpenAt(j, i, Begin) || OpenAt(j, i, End) <==> Conflicts(i, j)
  {
    PriorityOf(i);
    PriorityOf(j);
  }

  lemma BeginsBeforeItEnds(i: Interval)
    requires InRange(i)
    ensures Less(EventOf(i, Begin), EventOf(i, End))
  {
  }

  // ---------------------------------------------------------------- events in order

  ghost predicate Sorted(events: seq<Event>) {
    forall m, n | 0 <= m < n < |events| :: Less(events[m], events[n])
  }

  ghost predicate EventsOf(events: seq<Event>, s: set<Interval>) {
    && (forall i, kind | i in s :: EventOf(i, kind) in events)
    && (forall m | 0 <= m < |events| :: IsEvent(events[m], s))
  }

  ghost predicate IsEvent(x: Event, s: set<Interval>) {
    exists i, kind :: i in s && x == EventOf(i, kind)
  }

  lemma LessIsTransitive(x: Event, y: Event, z: Event)
    requires Less(x, y) && Less(y, z)
    ensures Less(x, z)
  {
  }

  lemma EventsAreDistinct(s: set<Interval>, i: Interval, j: Interval, k: EventType, l: EventType)
    requires Coherent(s) && i in s && j in s && EventOf(i, k) == EventOf(j, l)
    ensures i == j && k == l
  {
    PriorityOf(i);
    PriorityOf(j);
  }

  /** In a sorted sequence, being in the prefix is being less. */
  lemma PrefixIsLess(events: seq<Event>, n: nat, x: Event)
    requires Sorted(events) && n < |events| && x in events
    ensures x in events[..n] <==> Less(x, events[n])
  {
    var m :| 0 <= m < |events| && events[m] == x;
    if m < n {
      assert events[..n][m] == x;
    } else if x in events[..n] {
      var k :| 0 <= k < n && events[k] == x;
      assert Less(events[k], events[n]);
      assert m == n || Less(events[n], events[m]);
    }
  }

  /** The intervals whose begin but not whose end is among the first n events. */
  ghost function OpenSet(events: seq<Event>, s: set<Interval>, n: nat): set<Interval>
    requires n <= |events|
  {
    set i | i in s && EventOf(i, Begin) in events[..n] && EventOf(i, End) !in events[..n]
  }

  /** Processing event n opens or closes exactly its own interval. */
  lemma OpenSetStep(events: seq<Event>, s: set<Interval>, n: nat, i: Interval, kind: EventType)
    requires Coherent(s) && Sorted(events) && EventsOf(events, s) && n < |events|
    requires i in s && events[n] == EventOf(i, kind)
    ensures kind == Begin ==> i !in OpenSet(events, s, n) && OpenSet(events, s, n + 1) == OpenSet(events, s, n) + {i}
    ensures kind == End ==> i in OpenSet(events, s, n) && OpenSet(events, s, n + 1) == OpenSet(events, s, n) - {i}
  {
    var prefix, next := events[..n], events[..n + 1];
    assert next == prefix + [events[n]];
    PrefixIsLess(events, n, EventOf(i, Begin));
    PrefixIsLess(events, n, EventOf(i, End));
    BeginsBeforeItEnds(i);
    forall j, k | j in s
      ensures EventOf(j, k) in next <==> EventOf(j, k) in prefix || (j == i && k == kind)
    {
      if EventOf(j, k) == events[n] {
        EventsAreDistinct(s, i, j, kind, k);
      }
    }
  }

  /** The others open when event n is processed are those OpenAt describes. */
  lemma OthersOpen(events: seq<Event>, s: set<Interval>, n: nat, i: Interval, kind: EventType, j: Interval)
    requires Coherent(s) && Sorted(events) && EventsOf(events, s) && n < |events|
    requires i in s && j in s && i != j && events[n] == EventOf(i, kind)
    ensures j in OpenSet(events, s, n) <==> OpenAt(j, i, kind)
  {
    PrefixIsLess(events, n, EventOf(j, Begin));
    PrefixIsLess(events, n, EventOf(j, End));
    var m :| 0 <= m < |events| && events[m] == EventOf(j, End);
    if EventOf(j, End) == events[n] {
      EventsAreDistinct(s, i, j, kind, End);
    }
    assert m < n ==> Less(events[m], events[n]);
    assert m > n ==> Less(events[n], events[m]);
  }

  // ---------------------------------------------------------------- the sweep

  /** Something else is open when event n is processed. */
  ghost predicate Flagged(events: seq<Event>, s: set<Interval>, n: nat)
    requires n < |events|
  {
    exists i, j, kind :: i in s && j in s && i != j && events[n] == EventOf(i, kind) && OpenAt(j, i, kind)
  }

  ghost predicate ConflictFree(s: set<Interval>, id: nat) {
    forall i, j | i in s && j in s && i.id == id :: !Conflicts(i, j)
  }

  /** Marks the errors one of whose events finds another interval open. */
  method Sweep(events: seq<Event>, ghost s: set<Interval>, before: seq<bool>) returns (apply: seq<bool>)
    requires Coherent(s) && Sorted(events) && EventsOf(events, s)
    requires forall i | i in s :: i.id < |before|
    ensures |apply| == |before|
    ensures forall e | 0 <= e < |apply| :: apply[e] <==> before[e] && ConflictFree(s, e)
  {
    hide Less, OpenAt, Conflicts, Flagged, Coherent, Sorted, ConflictFree, EventsOf, OpenSet;
    apply := before;
    var openIntervals := 0;
    assert OpenSet(events, s, 0) == {} by { NoneOpen(events, s); }
    for n := 0 to |events|
      invariant |apply| == |before| && openIntervals == |OpenSet(events, s, n)|
      invariant forall e | 0 <= e < |apply| ::
        apply[e] <==> before[e] && forall m | 0 <= m < n && events[m].id == e :: !Flagged(events, s, m)
    {
      var event := events[n];
      ghost var i, kind := SourceOf(events, s, n);
      OpenSetStep(events, s, n, i, kind);
      FlaggedMeansOthers(events, s, n, i, kind);
      if event.kind == End {
        openIntervals := openIntervals - 1;
      }
      assert openIntervals >= 0;
      if openIntervals != 0 {
        apply := apply[event.id := false];
      }
      if event.kind == Begin {
        openIntervals := openIntervals + 1;
      }
    }
    assert OpenSet(events, s, |events|) == {} by { AllClosed(events, s); }
    assert openIntervals == 0;
    forall e | 0 <= e < |apply|
      ensures (forall m | 0 <= m < |events| && events[m].id == e :: !Flagged(events, s, m)) <==> ConflictFree(s, e)
    {
      UnflaggedMeansConflictFree(events, s, e);
    }
  }

  /** The interval and end that event n stands for. */
  lemma SourceOf(events: seq<Event>, s: set<Interval>, n: nat) returns (i: Interval, kind: EventType)
    requires EventsOf(events, s) && n < |events|
    ensures i in s && events[n] == EventOf(i, kind)
  {
    assert IsEvent(events[n], s);
    i, kind :| i in s && events[n] == EventOf(i, kind);
  }

  lemma NoneOpen(events: seq<Event>, s: set<Interval>)
    ensures OpenSet(events, s, 0) == {}
  {
  }

  lemma AllClosed(events: seq<Event>, s: set<Interval>)
    requires EventsOf(events, s)
    ensures OpenSet(events, s, |events|) == {}
  {
    assert events[..|events|] == events;
  }

  lemma FlaggedMeansOthers(events: seq<Event>, s: set<Interval>, n: nat, i: Interval, kind: EventType)
    requires Coherent(s) && Sorted(events) && EventsOf(events, s) && n < |events|
    requires i in s && events[n] == EventOf(i, kind)
    ensures Flagged(events, s, n) <==> OpenSet(events, s, n) - {i} != {}
  {
    hide Less, OpenAt, Coherent, Sorted, EventsOf, EventOf;
    forall j | j in s && j != i
      ensures j in OpenSet(events, s, n) <==> OpenAt(j, i, kind)
    {
      OthersOpen(events, s, n, i, kind, j);
    }
    if Flagged(events, s, n) {
      var a, j, k :| a in s && j in s && a != j && events[n] == EventOf(a, k) && OpenAt(j, a, k);
      EventsAreDistinct(s, a, i, k, kind);
      assert j in OpenSet(events, s, n) - {i};
    }
    if j :| j in OpenSet(events, s, n) - {i} {
      assert OpenAt(j, i, kind);
    }
  }

  lemma UnflaggedMeansConflictFree(events: seq<Event>, s: set<Interval>, e: nat)
    requires Coherent(s) && Sorted(events) && EventsOf(events, s)
    ensures (forall m | 0 <= m < |events| && events[m].id == e :: !Flagged(events, s, m)) <==> ConflictFree(s, e)
  {
    hide Less, OpenAt, Coherent, Sorted, ToInt;
    if i, j :| i in s && j in s && i.id == e && Conflicts(i, j) {
      OpenMeansConflict(s, i, j);
      var kind :| OpenAt(j, i, kind);
      var m :| 0 <= m < |events| && events[m] == EventOf(i, kind);
      assert Flagged(events, s, m);
    }
    if m :| 0 <= m < |events| && events[m].id == e && Flagged(events, s, m) {
      var i, j, kind :| i in s && j in s && i != j && events[m] == EventOf(i, kind) && OpenAt(j, i, kind);
      OpenMeansConflict(s, i, j);
      assert i.id == e && Conflicts(i, j);
    }
  }
}
