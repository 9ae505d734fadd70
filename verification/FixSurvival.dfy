/** Which fixes survive, told from the replacements of the errors alone. */
module FixSurvival {
  import opened SweepLine
  import opened ConflictingFixes

  /** Error e replaces the text from begin up to end in file f. */
  ghost predicate Replaces(errors: seq<TidyError>, e: nat, f: File, begin: nat, end: nat) {
    e < |errors| && FixReplaces(errors[e].fix, f, begin, end)
  }

  ghost predicate FixReplaces(fix: seq<FileFix>, f: File, begin: nat, end: nat) {
    exists k :: 0 <= k < |fix| && AnyReplaces(fix[k].replacements, f, begin, end)
  }

  predicate AnyReplaces(rs: seq<Replacement>, f: File, begin: nat, end: nat) {
    exists r :: 0 <= r < |rs| && rs[r].path == f && rs[r].offset == begin && rs[r].length > 0 && begin + rs[r].length == end
  }

  predicate IsPlaced(ps: seq<Placed>, e: nat, f: File, begin: nat, end: nat) {
    exists m :: 0 <= m < |ps| && ps[m].file == f && ps[m].interval.id == e
      && ps[m].interval.begin == begin && ps[m].interval.end == end
  }

  lemma PlacedInSum(a: seq<Placed>, b: seq<Placed>, e: nat, f: File, begin: nat, end: nat)
    ensures IsPlaced(a + b, e, f, begin, end) <==> IsPlaced(a, e, f, begin, end) || IsPlaced(b, e, f, begin, end)
  {
    if IsPlaced(a, e, f, begin, end) {
      var m :| 0 <= m < |a| && a[m].file == f && a[m].interval.id == e
        && a[m].interval.begin == begin && a[m].interval.end == end;
      assert (a + b)[m] == a[m];
    }
    if IsPlaced(b, e, f, begin, end) {
      var m :| 0 <= m < |b| && b[m].file == f && b[m].interval.id == e
        && b[m].interval.begin == begin && b[m].interval.end == end;
      assert (a + b)[|a| + m] == b[m];
    }
  }

  lemma {:induction false} ReplacementsArePlaced(rs: seq<Replacement>, id: nat, size: nat, e: nat, f: File, begin: nat, end: nat)
    ensures IsPlaced(ReplacementsPlaced(rs, id, size), e, f, begin, end) <==> e == id && AnyReplaces(rs, f, begin, end)
  {
    if rs != [] {
      var n := |rs| - 1;
      ReplacementsArePlaced(rs[..n], id, size, e, f, begin, end);
      var last := if rs[n].length == 0 then [] else [Place(rs[n], id, size)];
      PlacedInSum(ReplacementsPlaced(rs[..n], id, size), last, e, f, begin, end);
      assert last != [] ==> last[0] == Place(rs[n], id, size);
      assert forall r :: 0 <= r < n ==> rs[..n][r] == rs[r];
    }
  }

  lemma {:induction false} FixIsPlaced(fix: seq<FileFix>, id: nat, size: nat, e: nat, f: File, begin: nat, end: nat)
    ensures IsPlaced(FixPlaced(fix, id, size), e, f, begin, end) <==> e == id && FixReplaces(fix, f, begin, end)
  {
    hide AnyReplaces, IsPlaced;
    if fix != [] {
      var n := |fix| - 1;
      FixIsPlaced(fix[..n], id, size, e, f, begin, end);
      ReplacementsArePlaced(fix[n].replacements, id, size, e, f, begin, end);
      PlacedInSum(FixPlaced(fix[..n], id, size), ReplacementsPlaced(fix[n].replacements, id, size), e, f, begin, end);
      assert forall k :: 0 <= k < n ==> fix[..n][k] == fix[k];
    } else {
      NothingPlaced(e, f, begin, end);
    }
  }

  lemma NothingPlaced(e: nat, f: File, begin: nat, end: nat)
    ensures !IsPlaced([], e, f, begin, end)
  {
  }

  /** The edits that take part are the replacements that are not empty, each with its error. */
  lemma {:induction false} EditsAreTheReplacements(errors: seq<TidyError>, e: nat, f: File, begin: nat, end: nat)
    ensures IsPlaced(ErrorsPlaced(errors), e, f, begin, end) <==> Replaces(errors, e, f, begin, end)
    decreases |errors|
  {
    hide FixReplaces, IsPlaced;
    if errors == [] {
      NothingPlaced(e, f, begin, end);
    } else {
      var n := |errors| - 1;
      EditsAreTheReplacements(errors[..n], e, f, begin, end);
      FixIsPlaced(errors[n].fix, n, FixSize(errors[n].fix), e, f, begin, end);
      PlacedInSum(ErrorsPlaced(errors[..n]), FixPlaced(errors[n].fix, n, FixSize(errors[n].fix)), e, f, begin, end);
    }
  }

  // ---------------------------------------------------------------- how much text an error replaces

  /** The length of all edits of error id. */
  function TextReplaced(ps: seq<Placed>, id: nat): int {
    if ps == [] then 0
    else
      var last := ps[|ps| - 1].interval;
      TextReplaced(ps[..|ps| - 1], id) + if last.id == id then last.end - last.begin else 0
  }

  lemma {:induction false} TextOfSum(a: seq<Placed>, b: seq<Placed>, id: nat)
    ensures TextReplaced(a + b, id) == TextReplaced(a, id) + TextReplaced(b, id)
  {
    if b == [] {
      assert a + b == a;
    } else {
      var n := |b| - 1;
      TextOfSum(a, b[..n], id);
      assert (a + b)[..|a + b| - 1] == a + b[..n];
    }
  }

  lemma {:induction false} TextOfReplacements(rs: seq<Replacement>, id: nat, size: nat, e: nat)
    ensures TextReplaced(ReplacementsPlaced(rs, id, size), e) == if e == id then ReplacementsSize(rs) else 0
  {
    if rs != [] {
      var n := |rs| - 1;
      TextOfReplacements(rs[..n], id, size, e);
      var last := if rs[n].length == 0 then [] else [Place(rs[n], id, size)];
      TextOfSum(ReplacementsPlaced(rs[..n], id, size), last, e);
      assert last != [] ==> last[..0] == [];
    }
  }

  lemma {:induction false} TextOfFix(fix: seq<FileFix>, id: nat, size: nat, e: nat)
    ensures TextReplaced(FixPlaced(fix, id, size), e) == if e == id then FixSize(fix) else 0
  {
    if fix != [] {
      var n := |fix| - 1;
      TextOfFix(fix[..n], id, size, e);
      TextOfReplacements(fix[n].replacements, id, size, e);
      TextOfSum(FixPlaced(fix[..n], id, size), ReplacementsPlaced(fix[n].replacements, id, size), e);
    }
  }

  lemma {:induction false} TextOfErrors(errors: seq<TidyError>, e: nat)
    ensures TextReplaced(ErrorsPlaced(errors), e) == if e < |errors| then FixSize(errors[e].fix) else 0
    decreases |errors|
  {
    if errors != [] {
      var n := |errors| - 1;
      TextOfErrors(errors[..n], e);
      TextOfFix(errors[n].fix, n, FixSize(errors[n].fix), e);
      TextOfSum(ErrorsPlaced(errors[..n]), FixPlaced(errors[n].fix, n, FixSize(errors[n].fix)), e);
    }
  }

  /** The size in every interval is the length of all text its error replaces, in whatever file. */
  lemma SizeIsTheTextReplaced(errors: seq<TidyError>, p: Placed)
    requires p in ErrorsPlaced(errors)
    ensures p.interval.size == TextReplaced(ErrorsPlaced(errors), p.interval.id)
  {
    PlacedOrigins(errors);
    TextOfErrors(errors, p.interval.id);
  }

  // ---------------------------------------------------------------- who survives

  /** The edits p and q of different errors touch the same text. */
  predicate Touch(p: Placed, q: Placed) {
    && p.file == q.file && p.interval.id != q.interval.id
    && p.interval.begin < q.interval.end && q.interval.begin < p.interval.end
  }

  /** q changes only part of the text that p changes. */
  predicate PartOf(q: Placed, p: Placed) {
    && p.interval.begin <= q.interval.begin && q.interval.end <= p.interval.end
    && q.interval.end - q.interval.begin < p.interval.end - p.interval.begin
  }

  predicate SameText(p: Placed, q: Placed) {
    p.interval.begin == q.interval.begin && p.interval.end == q.interval.end
  }

  /** Error e prevails wherever it meets another: what it meets is part of its own edit, or is the
      same edit of an error that replaces less text altogether. */
  ghost predicate Prevails(errors: seq<TidyError>, e: nat) {
    var ps := ErrorsPlaced(errors);
    forall p, q | p in ps && q in ps && p.interval.id == e && Touch(p, q) ::
      PartOf(q, p) || (SameText(p, q) && TextReplaced(ps, q.interval.id) < TextReplaced(ps, e))
  }

  lemma ConflictsMeanNotPrevailing(errors: seq<TidyError>, p: Placed, q: Placed)
    requires Fixable(errors) && p in ErrorsPlaced(errors) && q in ErrorsPlaced(errors) && p.file == q.file
    ensures var ps := ErrorsPlaced(errors);
      Conflicts(p.interval, q.interval) <==>
        Touch(p, q) && !PartOf(q, p)
        && !(SameText(p, q) && TextReplaced(ps, q.interval.id) < TextReplaced(ps, p.interval.id))
  {
    hide ErrorsPlaced, TextReplaced;
    SizeIsTheTextReplaced(errors, p);
    SizeIsTheTextReplaced(errors, q);
    if p.interval.id == q.interval.id && p.interval != q.interval {
      PlacedInFile(errors, p);
      PlacedInFile(errors, q);
      IntervalsOfOneErrorAreDisjoint(errors, p.file, p.interval, q.interval);
    }
  }

  lemma PlacedInFile(errors: seq<TidyError>, p: Placed)
    ensures p in ErrorsPlaced(errors) <==> p.interval in IntervalsIn(ErrorsPlaced(errors), p.file)
  {
  }

  lemma ApplyingIsPrevailing(errors: seq<TidyError>, e: nat)
    requires Fixable(errors)
    ensures Applies(errors, e) <==> Prevails(errors, e)
  {
    hide ErrorsPlaced, TextReplaced, Conflicts, PartOf, SameText, Touch, Fixable;
    var ps := ErrorsPlaced(errors);
    if Applies(errors, e) {
      forall p, q | p in ps && q in ps && p.interval.id == e && Touch(p, q)
        ensures PartOf(q, p) || (SameText(p, q) && TextReplaced(ps, q.interval.id) < TextReplaced(ps, e))
      {
        TouchInOneFile(p, q);
        ConflictsMeanNotPrevailing(errors, p, q);
        assert p.interval in IntervalsIn(ps, p.file) && q.interval in IntervalsIn(ps, p.file);
        assert ConflictFree(IntervalsIn(ps, p.file), e);
      }
    }
    if Prevails(errors, e) {
      forall f, i, j | i in IntervalsIn(ps, f) && j in IntervalsIn(ps, f) && i.id == e
        ensures !Conflicts(i, j)
      {
        assert Placed(f, i) in ps && Placed(f, j) in ps;
        ConflictsMeanNotPrevailing(errors, Placed(f, i), Placed(f, j));
      }
      forall f
        ensures ConflictFree(IntervalsIn(ps, f), e)
      {
      }
    }
  }

  lemma TouchInOneFile(p: Placed, q: Placed)
    requires Touch(p, q)
    ensures p.file == q.file
  {
  }

  /** An error keeps its fix exactly if its own fixes did not conflict and it prevails over every
      other error; otherwise the fix is cleared and notes say why. */
  lemma SurvivesIff(errors: seq<TidyError>, e: nat)
    requires Fixable(errors) && e < |errors|
    ensures var after := Resolved(errors, e);
      && after.hasConflictedFixes == errors[e].hasConflictedFixes
      && after.fix == (if !errors[e].hasConflictedFixes && Prevails(errors, e) then errors[e].fix else [])
      && after.notes == errors[e].notes
           + (if errors[e].hasConflictedFixes then [ConflictedFixesNote] else [])
           + (if Prevails(errors, e) then [] else [OverlapNote])
  {
    hide Applies, Prevails;
    ApplyingIsPrevailing(errors, e);
  }

  /** Two errors make the same edit, and nothing else they do meets another error. */
  ghost predicate OnlyMeetIn(errors: seq<TidyError>, p: Placed, q: Placed) {
    var ps := ErrorsPlaced(errors);
    && p in ps && q in ps && p.file == q.file && SameText(p, q) && p.interval.id != q.interval.id
    && forall r, s | r in ps && s in ps && Touch(r, s) && r.interval.id in {p.interval.id, q.interval.id} ::
         (r == p && s == q) || (r == q && s == p)
  }

  /** Of two errors that make one equal edit and are otherwise apart, the one that replaces more text
      altogether keeps its fix and the other loses it; equal amounts cost both their fixes. */
  lemma MoreTextWins(errors: seq<TidyError>, p: Placed, q: Placed)
    requires Fixable(errors) && OnlyMeetIn(errors, p, q)
    ensures p.interval.id < |errors| && !errors[p.interval.id].hasConflictedFixes ==>
      var ps := ErrorsPlaced(errors);
      Resolved(errors, p.interval.id).fix ==
        if TextReplaced(ps, p.interval.id) > TextReplaced(ps, q.interval.id) then errors[p.interval.id].fix else []
  {
    hide ErrorsPlaced, TextReplaced, Resolved, FixSize;
    var ps, e := ErrorsPlaced(errors), p.interval.id;
    PlacedOrigins(errors);
    assert InRange(p.interval);
    SurvivesIff(errors, e);
    assert Touch(p, q) && !PartOf(q, p);
  }

  /** What is left applies cleanly: two different edits of the resulting errors never touch. */
  lemma WhatIsLeftIsApart(errors: seq<TidyError>, after: seq<TidyError>, p: Placed, q: Placed)
    requires Fixable(errors) && |after| == |errors| && forall e :: 0 <= e < |errors| ==> after[e] == Resolved(errors, e)
    requires p in ErrorsPlaced(after) && q in ErrorsPlaced(after) && p.file == q.file && p != q
    ensures p.interval.end <= q.interval.begin || q.interval.end <= p.interval.begin
  {
    hide ErrorsPlaced, Resolved, Fixable;
    PlacedInFile(after, p);
    PlacedInFile(after, q);
    SurvivingFixesAreDisjoint(errors, after, p.file, p.interval, q.interval);
  }
}
