/** clang-tidy's removal of fixes that overlap with other fixes, over all files. */
module ConflictingFixes {
  import opened SweepLine

  type File = string

  datatype Replacement = Replacement(path: File, offset: nat, length: nat)

  /** One entry of ClangTidyError::Fix, a map from files to replacements. */
  datatype FileFix = FileFix(file: File, replacements: seq<Replacement>)

  datatype Note = ConflictedFixesNote | OverlapNote | CheckNote(text: string)

  datatype TidyError = TidyError(fix: seq<FileFix>, notes: seq<Note>, hasConflictedFixes: bool)

  // ---------------------------------------------------------------- intervals of a list of errors

  function ReplacementsSize(rs: seq<Replacement>): nat {
    if rs == [] then 0 else ReplacementsSize(rs[..|rs| - 1]) + rs[|rs| - 1].length
  }

  function FixSize(fix: seq<FileFix>): nat {
    if fix == [] then 0 else FixSize(fix[..|fix| - 1]) + ReplacementsSize(fix[|fix| - 1].replacements)
  }

  /** An edit of some file; only those that are not empty take part. */
  datatype Placed = Placed(file: File, interval: Interval)

  function Place(r: Replacement, id: nat, size: nat): Placed {
    Placed(r.path, Interval(r.offset, r.offset + r.length, id, size))
  }

  function ReplacementsPlaced(rs: seq<Replacement>, id: nat, size: nat): seq<Placed> {
    if rs == [] then []
    else ReplacementsPlaced(rs[..|rs| - 1], id, size) +
         if rs[|rs| - 1].length == 0 then [] else [Place(rs[|rs| - 1], id, size)]
  }

  function FixPlaced(fix: seq<FileFix>, id: nat, size: nat): seq<Placed> {
    if fix == [] then []
    else FixPlaced(fix[..|fix| - 1], id, size) + ReplacementsPlaced(fix[|fix| - 1].replacements, id, size)
  }

  function ErrorsPlaced(errors: seq<TidyError>): seq<Placed> {
    if errors == [] then []
    else
      var n := |errors| - 1;
      ErrorsPlaced(errors[..n]) + FixPlaced(errors[n].fix, n, FixSize(errors[n].fix))
  }

  function IntervalsIn(ps: seq<Placed>, f: File): set<Interval> {
    set p | p in ps && p.file == f :: p.interval
  }

  /** Offsets and sizes fit an int, and within one error the replacements of a file are disjoint. */
  ghost predicate Disjointly(ps: seq<Placed>) {
    && (forall p | p in ps :: InRange(p.interval))
    && (forall m, n | 0 <= m < n < |ps| && ps[m].file == ps[n].file && ps[m].interval.id == ps[n].interval.id ::
          !Overlap(ps[m].interval, ps[n].interval))
  }

  ghost predicate OneSizeEach(ps: seq<Placed>) {
    forall p, q | p in ps && q in ps && p.interval.id == q.interval.id :: p.interval.size == q.interval.size
  }

  ghost predicate WellPlaced(ps: seq<Placed>) {
    Disjointly(ps) && OneSizeEach(ps)
  }

  lemma IntervalsAreCoherent(ps: seq<Placed>, f: File)
    requires WellPlaced(ps)
    ensures Coherent(IntervalsIn(ps, f))
  {
    var s := IntervalsIn(ps, f);
    forall i | i in s
      ensures InRange(i)
    {
      var p :| p in ps && p.file == f && p.interval == i;
    }
    forall i, j | i in s && j in s && i.id == j.id
      ensures i.size == j.size && (i == j || !Overlap(i, j))
    {
      var p :| p in ps && p.file == f && p.interval == i;
      var q :| q in ps && q.file == f && q.interval == j;
      var m :| 0 <= m < |ps| && ps[m] == p;
      var n :| 0 <= n < |ps| && ps[n] == q;
      if m < n {
        assert ps[m].file == ps[n].file;
      } else if n < m {
        assert ps[n].file == ps[m].file;
      }
    }
  }

  // ---------------------------------------------------------------- events per file

  function EventsIn(ps: seq<Placed>, f: File): seq<Event> {
    if ps == [] then []
    else
      var p := ps[|ps| - 1];
      EventsIn(ps[..|ps| - 1], f) +
      if p.file == f then [EventOf(p.interval, Begin), EventOf(p.interval, End)] else []
  }

  lemma {:induction false} EventsComeFromIntervals(ps: seq<Placed>, f: File)
    ensures EventsOf(EventsIn(ps, f), IntervalsIn(ps, f))
  {
    if ps != [] {
      var n := |ps| - 1;
      var p, before, events := ps[n], ps[..n], EventsIn(ps, f);
      EventsComeFromIntervals(before, f);
      assert ps == before + [p];
      forall i, kind | i in IntervalsIn(ps, f)
        ensures EventOf(i, kind) in events
      {
        if i in IntervalsIn(before, f) {
          assert EventOf(i, kind) in EventsIn(before, f);
        } else {
          assert i == p.interval && events[|events| - 2] == EventOf(i, Begin)
            && events[|events| - 1] == EventOf(i, End);
        }
      }
      forall m | 0 <= m < |events|
        ensures IsEvent(events[m], IntervalsIn(ps, f))
      {
        if m < |EventsIn(before, f)| {
          assert IsEvent(EventsIn(before, f)[m], IntervalsIn(before, f));
          var i, kind :| i in IntervalsIn(before, f) && events[m] == EventOf(i, kind);
          assert i in IntervalsIn(ps, f);
        } else {
          assert p.interval in IntervalsIn(ps, f);
        }
      }
    }
  }

  predicate Comparable(x: Event, y: Event) { Less(x, y) || Less(y, x) }

  ghost predicate PairwiseComparable(events: seq<Event>) {
    forall m, n | 0 <= m < n < |events| :: Comparable(events[m], events[n])
  }

  lemma DifferentEventsCompare(s: set<Interval>, i: Interval, j: Interval, k: EventType, l: EventType)
    requires Coherent(s) && i in s && j in s && (i != j || k != l)
    ensures Comparable(EventOf(i, k), EventOf(j, l))
  {
    PriorityOf(i);
    PriorityOf(j);
  }

  lemma NewEventCompares(before: seq<Placed>, p: Placed, m: nat, kind: EventType)
    requires WellPlaced(before + [p]) && m < |EventsIn(before, p.file)|
    ensures Comparable(EventsIn(before, p.file)[m], EventOf(p.interval, kind))
  {
    hide Comparable, EventOf, Less;
    var ps := before + [p];
    EventsComeFromIntervals(before, p.file);
    var i, k := SourceOf(EventsIn(before, p.file), IntervalsIn(before, p.file), m);
    var q :| q in before && q.file == p.file && q.interval == i;
    var l :| 0 <= l < |before| && before[l] == q;
    assert ps[l] == q && ps[|before|] == p && InRange(i);
    IntervalsAreCoherent(ps, p.file);
    DifferentEventsCompare(IntervalsIn(ps, p.file), i, p.interval, k, kind);
  }

  /** No two events are tied, so sorting them leaves no choice. */
  lemma {:induction false} EventsCompare(ps: seq<Placed>, f: File)
    requires WellPlaced(ps)
    ensures PairwiseComparable(EventsIn(ps, f))
  {
    if ps != [] {
      var n := |ps| - 1;
      var p, before := ps[n], ps[..n];
      assert ps == before + [p];
      EventsCompare(before, f);
      if p.file == f {
        IntervalsAreCoherent(ps, f);
        assert p.interval in IntervalsIn(ps, f);
        DifferentEventsCompare(IntervalsIn(ps, f), p.interval, p.interval, Begin, End);
        forall m, kind | 0 <= m < |EventsIn(before, f)|
          ensures Comparable(EventsIn(before, f)[m], EventOf(p.interval, kind))
        {
          NewEventCompares(before, p, m, kind);
        }
        hide Comparable, EventOf, WellPlaced;
      }
    }
  }

  /** std::sort for events that are never tied. */
  method Sort(events: seq<Event>) returns (sorted: seq<Event>)
    requires PairwiseComparable(events)
    ensures Sorted(sorted) && multiset(sorted) == multiset(events)
  {
    sorted := [];
    for n := 0 to |events|
      invariant Sorted(sorted) && multiset(sorted) == multiset(events[..n])
    {
      assert events[..n + 1] == events[..n] + [events[n]];
      forall x | x in sorted
        ensures Comparable(x, events[n])
      {
        assert x in multiset(events[..n]);
        var m :| 0 <= m < n && events[m] == x;
      }
      sorted := Insert(sorted, events[n]);
    }
    assert events[..|events|] == events;
  }

  method Insert(sorted: seq<Event>, x: Event) returns (result: seq<Event>)
    requires Sorted(sorted) && forall y | y in sorted :: Comparable(y, x)
    ensures Sorted(result) && multiset(result) == multiset(sorted) + multiset{x}
  {
    var k := 0;
    while k < |sorted| && Less(sorted[k], x)
      invariant k <= |sorted| && forall m | 0 <= m < k :: Less(sorted[m], x)
    {
      k := k + 1;
    }
    if k < |sorted| {
      assert Comparable(sorted[k], x);
      forall m | k <= m < |sorted|
        ensures Less(x, sorted[m])
      {
        if m > k {
          LessIsTransitive(x, sorted[k], sorted[m]);
        }
      }
    }
    result := sorted[..k] + [x] + sorted[k..];
    assert sorted == sorted[..k] + sorted[k..];
  }

  // ---------------------------------------------------------------- the whole pass

  ghost predicate Fixable(errors: seq<TidyError>) {
    Disjointly(ErrorsPlaced(errors))
  }

  /** Nothing in any file conflicts with an edit of error e. */
  ghost predicate Applies(errors: seq<TidyError>, e: nat) {
    forall f :: ConflictFree(IntervalsIn(ErrorsPlaced(errors), f), e)
  }

  /** What becomes of error e: both notes may be added. */
  ghost function Resolved(errors: seq<TidyError>, e: nat): TidyError
    requires e < |errors|
  {
    var first := if errors[e].hasConflictedFixes
                 then errors[e].(fix := [], notes := errors[e].notes + [ConflictedFixesNote]) else errors[e];
    if Applies(errors, e) then first else first.(fix := [], notes := first.notes + [OverlapNote])
  }

  method ErrorSize(fix: seq<FileFix>) returns (size: nat)
    ensures size == FixSize(fix)
  {
    size := 0;
    for k := 0 to |fix|
      invariant size == FixSize(fix[..k])
    {
      var rs := fix[k].replacements;
      for r := 0 to |rs|
        invariant size == FixSize(fix[..k]) + ReplacementsSize(rs[..r])
      {
        assert rs[..r + 1][..r] == rs[..r];
        size := size + rs[r].length;
      }
      assert rs[..|rs|] == rs && fix[..k + 1][..k] == fix[..k];
    }
    assert fix[..|fix|] == fix;
  }

  type FileEvents = map<File, seq<Event>>

  /** Every file's event vector holds the events of what was placed so far. */
  ghost predicate Collected(fileEvents: FileEvents, ps: seq<Placed>) {
    && (forall f | f in fileEvents :: fileEvents[f] == EventsIn(ps, f))
    && (forall p | p in ps :: p.file in fileEvents)
  }

  function Added(fileEvents: FileEvents, p: Placed): FileEvents {
    var events := if p.file in fileEvents then fileEvents[p.file] else [];
    fileEvents[p.file := events + [EventOf(p.interval, Begin), EventOf(p.interval, End)]]
  }

  lemma {:induction false} NoEventsElsewhere(ps: seq<Placed>, f: File)
    requires forall p | p in ps :: p.file != f
    ensures EventsIn(ps, f) == []
  {
    if ps != [] {
      NoEventsElsewhere(ps[..|ps| - 1], f);
    }
  }

  lemma CollectedOneMore(fileEvents: FileEvents, ps: seq<Placed>, p: Placed)
    requires Collected(fileEvents, ps)
    ensures Collected(Added(fileEvents, p), ps + [p])
  {
    assert (ps + [p])[..|ps|] == ps;
    if p.file !in fileEvents {
      NoEventsElsewhere(ps, p.file);
    }
  }

  method CollectEvents(errors: seq<TidyError>) returns (fileEvents: FileEvents)
    ensures Collected(fileEvents, ErrorsPlaced(errors))
  {
    fileEvents := map[];
    for e := 0 to |errors|
      invariant Collected(fileEvents, ErrorsPlaced(errors[..e]))
    {
      fileEvents := CollectError(fileEvents, errors[e].fix, e, ErrorsPlaced(errors[..e]));
      assert errors[..e + 1][..e] == errors[..e];
    }
    assert errors[..|errors|] == errors;
  }

  method CollectError(before: FileEvents, fix: seq<FileFix>, e: nat,
                      ghost ps: seq<Placed>) returns (fileEvents: FileEvents)
    requires Collected(before, ps)
    ensures Collected(fileEvents, ps + FixPlaced(fix, e, FixSize(fix)))
  {
    hide Collected;
    fileEvents := before;
    var size := ErrorSize(fix);
    assert ps + [] == ps;
    for k := 0 to |fix|
      invariant Collected(fileEvents, ps + FixPlaced(fix[..k], e, size))
    {
      fileEvents := CollectReplacements(fileEvents, fix[k].replacements, e, size, ps + FixPlaced(fix[..k], e, size));
      assert fix[..k + 1][..k] == fix[..k];
      assert ps + FixPlaced(fix[..k + 1], e, size) ==
             ps + FixPlaced(fix[..k], e, size) + ReplacementsPlaced(fix[k].replacements, e, size);
    }
    assert fix[..|fix|] == fix;
  }

  method CollectReplacements(before: FileEvents, rs: seq<Replacement>, e: nat, size: nat, ghost ps: seq<Placed>)
    returns (fileEvents: FileEvents)
    requires Collected(before, ps)
    ensures Collected(fileEvents, ps + ReplacementsPlaced(rs, e, size))
  {
    hide Collected, Added;
    fileEvents := before;
    assert ps + [] == ps;
    for r := 0 to |rs|
      invariant Collected(fileEvents, ps + ReplacementsPlaced(rs[..r], e, size))
    {
      ghost var done := ps + ReplacementsPlaced(rs[..r], e, size);
      assert rs[..r + 1][..r] == rs[..r];
      var begin, end := rs[r].offset, rs[r].offset + rs[r].length;
      if begin == end {
        assert ps + ReplacementsPlaced(rs[..r + 1], e, size) == done;
      } else {
        CollectedOneMore(fileEvents, done, Place(rs[r], e, size));
        assert ps + ReplacementsPlaced(rs[..r + 1], e, size) == done + [Place(rs[r], e, size)];
        fileEvents := Added(fileEvents, Place(rs[r], e, size));
      }
    }
    assert rs[..|rs|] == rs;
  }

  lemma SortedEventsOf(events: seq<Event>, sorted: seq<Event>, s: set<Interval>)
    requires EventsOf(events, s) && multiset(sorted) == multiset(events)
    ensures EventsOf(sorted, s)
  {
    assert forall x :: x in sorted <==> x in multiset(sorted);
    assert forall x :: x in events <==> x in multiset(events);
    forall m | 0 <= m < |sorted|
      ensures IsEvent(sorted[m], s)
    {
      assert sorted[m] in events;
    }
  }

  lemma {:induction false} PlacedOrigins(errors: seq<TidyError>)
    ensures forall p | p in ErrorsPlaced(errors) ::
      p.interval.id < |errors| && p.interval.size == FixSize(errors[p.interval.id].fix)
  {
    if errors != [] {
      var n := |errors| - 1;
      PlacedOrigins(errors[..n]);
      FixOrigins(errors[n].fix, n, FixSize(errors[n].fix));
    }
  }

  lemma {:induction false} FixOrigins(fix: seq<FileFix>, id: nat, size: nat)
    ensures forall p | p in FixPlaced(fix, id, size) :: p.interval.id == id && p.interval.size == size
  {
    if fix != [] {
      FixOrigins(fix[..|fix| - 1], id, size);
      ReplacementOrigins(fix[|fix| - 1].replacements, id, size);
    }
  }

  lemma {:induction false} ReplacementOrigins(rs: seq<Replacement>, id: nat, size: nat)
    ensures forall p | p in ReplacementsPlaced(rs, id, size) :: p.interval.id == id && p.interval.size == size
  {
    if rs != [] {
      ReplacementOrigins(rs[..|rs| - 1], id, size);
    }
  }

  method SweepFiles(fileEvents: FileEvents, ghost ps: seq<Placed>, count: nat) returns (apply: seq<bool>)
    requires WellPlaced(ps) && Collected(fileEvents, ps) && forall p | p in ps :: p.interval.id < count
    ensures |apply| == count
    ensures forall e | 0 <= e < count :: apply[e] <==> forall f :: ConflictFree(IntervalsIn(ps, f), e)
  {
    apply := seq(count, _ => true);
    var remaining := fileEvents.Keys;
    while remaining != {}
      invariant remaining <= fileEvents.Keys && |apply| == count
      invariant forall e | 0 <= e < count ::
        apply[e] <==> forall f | f in fileEvents.Keys - remaining :: ConflictFree(IntervalsIn(ps, f), e)
      decreases remaining
    {
      var f :| f in remaining;
      EventsCompare(ps, f);
      EventsComeFromIntervals(ps, f);
      IntervalsAreCoherent(ps, f);
      var events := Sort(fileEvents[f]);
      SortedEventsOf(fileEvents[f], events, IntervalsIn(ps, f));
      apply := Sweep(events, IntervalsIn(ps, f), apply);
      remaining := remaining - {f};
    }
    assert forall f | f !in fileEvents :: IntervalsIn(ps, f) == {};
  }

  /** Clears the fixes that do not apply and says so, in place. */
  method RemoveIncompatibleErrors(errors: array<TidyError>)
    requires Fixable(errors[..])
    modifies errors
    ensures forall e | 0 <= e < errors.Length :: errors[e] == Resolved(old(errors[..]), e)
  {
    ghost var before := errors[..];
    var fileEvents := CollectEvents(errors[..]);
    PlacedOrigins(before);
    var apply := SweepFiles(fileEvents, ErrorsPlaced(before), errors.Length);
    for e := 0 to errors.Length
      invariant forall d | 0 <= d < e :: errors[d] == Resolved(before, d)
      invariant forall d | e <= d < errors.Length :: errors[d] == before[d]
    {
      assert apply[e] <==> Applies(before, e);
      if errors[e].hasConflictedFixes {
        errors[e] := errors[e].(fix := [], notes := errors[e].notes + [ConflictedFixesNote]);
      }
      if !apply[e] {
        errors[e] := errors[e].(fix := [], notes := errors[e].notes + [OverlapNote]);
      }
    }
  }

  /** Clearing fixes adds no edit, and leaves none of the errors it clears. */
  lemma {:induction false} KeptEdits(errors: seq<TidyError>, after: seq<TidyError>, p: Placed)
    requires |after| == |errors| && p in ErrorsPlaced(after)
    requires forall e :: 0 <= e < |errors| ==> after[e].fix == [] || after[e].fix == errors[e].fix
    ensures p in ErrorsPlaced(errors) && p.interval.id < |errors| && after[p.interval.id].fix != []
    decreases |errors|
  {
    var n := |errors| - 1;
    if p in ErrorsPlaced(after[..n]) {
      KeptEdits(errors[..n], after[..n], p);
    } else {
      FixOrigins(after[n].fix, n, FixSize(after[n].fix));
    }
  }

  /** What removeIncompatibleErrors leaves applies cleanly: no two edits of the resulting errors overlap. */
  lemma SurvivingFixesAreDisjoint(errors: seq<TidyError>, after: seq<TidyError>, f: File, i: Interval, j: Interval)
    requires Fixable(errors) && |after| == |errors| && forall e :: 0 <= e < |errors| ==> after[e] == Resolved(errors, e)
    requires i in IntervalsIn(ErrorsPlaced(after), f) && j in IntervalsIn(ErrorsPlaced(after), f) && i != j
    ensures !Overlap(i, j)
  {
    hide Applies, FixSize, ErrorsPlaced;
    KeptEdits(errors, after, Placed(f, i));
    KeptEdits(errors, after, Placed(f, j));
    AppliesMeansConflictFree(errors, f, i);
    AppliesMeansConflictFree(errors, f, j);
    if i.id == j.id {
      IntervalsOfOneErrorAreDisjoint(errors, f, i, j);
    } else {
      assert !Conflicts(i, j) && !Conflicts(j, i);
    }
  }

  lemma AppliesMeansConflictFree(errors: seq<TidyError>, f: File, i: Interval)
    requires i in IntervalsIn(ErrorsPlaced(errors), f) && Applies(errors, i.id)
    ensures forall j :: j in IntervalsIn(ErrorsPlaced(errors), f) && j.id != i.id ==> !Conflicts(i, j)
  {
    assert ConflictFree(IntervalsIn(ErrorsPlaced(errors), f), i.id);
  }

  lemma IntervalsOfOneErrorAreDisjoint(errors: seq<TidyError>, f: File, i: Interval, j: Interval)
    requires Fixable(errors) && i.id == j.id && i != j
    requires i in IntervalsIn(ErrorsPlaced(errors), f) && j in IntervalsIn(ErrorsPlaced(errors), f)
    ensures !Overlap(i, j)
  {
    var ps := ErrorsPlaced(errors);
    var m :| 0 <= m < |ps| && ps[m] == Placed(f, i);
    var n :| 0 <= n < |ps| && ps[n] == Placed(f, j);
    if m < n { assert !Overlap(ps[m].interval, ps[n].interval); } else { assert !Overlap(ps[n].interval, ps[m].interval); }
  }
}
