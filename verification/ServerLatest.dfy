/** The last publication of a file is that of its newest request, unless an older request's result
    for the same version is still in some worker's hands when the newest request is made. */
module ServerLatest {
  import opened Options
  import opened CppFiles
  import opened RebuildProtocol
  import opened RebuildSafety
  import opened RebuildProgress
  import opened RebuildResults
  import opened ServerTables
  import opened ServerProtocol
  import opened ServerProofs
  import opened ServerTheorems
  import opened ServerProgress
  import opened ServerPublications
  import opened ServerFreshness

  /** What was published last for a file. */
  function LastOf(published: seq<Publication>, f: File): Option<Publication> {
    if published == [] then None
    else if published[|published| - 1].file == f then Some(published[|published| - 1])
    else LastOf(published[..|published| - 1], f)
  }

  /** From here on the closure will return diagnostics, superseded or not. */
  predicate Reporting(phase: Phase) {
    phase.BuildingAst? || (phase.Settled() && phase.result.Diagnostics?)
  }

  /** Worker w is bound to publish something for version v of f that is not from request n. */
  predicate Rival(s: State, w: nat, f: File, v: nat, n: nat)
    requires w < |s.workers|
  {
    match s.workers[w]
    case Publishing(p) => p.file == f && p.version == v && p.request != n
    case Running(t) =>
      && t.ReparseTask? && t.file == f && t.version == v && t.request != n
      && t.unit < |s.files| && t.request < |s.files[t.unit].closures| && Reporting(PhaseOf(s, t))
    case _ => false
  }

  predicate NoRival(s: State, f: File, v: nat, n: nat) {
    forall w :: 0 <= w < |s.workers| ==> !Rival(s, w, f, v, n)
  }

  /** Version v of f is the current one and request n of unit u the newest for it. */
  predicate Latest(s: State, f: File, v: nat, u: nat, n: nat) {
    && Open(s.drafts, f) && Version(s.drafts, f) == v
    && f in s.units && s.units[f] == u < |s.files| && Newest(s.files[u]) == n
  }

  predicate Answers(p: Publication, f: File, v: nat, u: nat, n: nat) {
    p.file == f && p.version == v && p.unit == u && p.request == n
  }

  ghost predicate Answered(s: State, f: File, v: nat, u: nat, n: nat) {
    exists i :: 0 <= i < |s.published| && Answers(s.published[i], f, v, u, n)
  }

  // ---------------------------------------------------------------- rivals do not appear

  lemma ReportingBefore(p: Protocol, step: Step, k: nat)
    requires p.file.Shaped() && Enabled(p, step) && k < |p.closures|
    requires k < |Apply(p, step).closures| && Reporting(Apply(p, step).closures[k].phase)
    ensures Reporting(p.closures[k].phase) || (step.BuildPreamble? && step.k == k == Newest(p))
  {
  }

  lemma RivalBefore(s: State, step: ServerStep, w: nat, f: File, v: nat, u: nat, n: nat)
    requires ServerInv(s) && TasksOnUnit(s) && CanStep(s, step) && Latest(s, f, v, u, n)
    requires w < |Do(s, step).workers| && Rival(Do(s, step), w, f, v, n)
    ensures w < |s.workers| && Rival(s, w, f, v, n)
  {
    hide CanStep, Do, UnitsOk, OneHandEach, NoOrphans, NothingForgotten, ReportsOk, Apply, Enabled, FileStep, Held, Reporting;
    var t := Do(s, step);
    if t.workers[w].Publishing? {
      PublishingBefore(s, step, w);
      ResultsAreReporting();
    } else {
      RunningBefore(s, step, w);
      assert WorkerOk(s, s.workers[w]);
      var task := t.workers[w].task;
      FileStepIsAll(s, step);
      if s.workers[w] == t.workers[w] {
        RunningIsHeld(s, w, task);
        assert task.unit == u;
        var share := Share(s, step, u);
        if share != [] {
          ReportingBefore(s.files[u], share[0], task.request);
        }
      } else {
        CheckingBuildsNothing(s, step, task);
      }
    }
  }

  lemma ResultsAreReporting()
    ensures forall diags :: Reporting(Finished(Diagnostics(diags)))
  {
  }

  lemma CheckingBuildsNothing(s: State, step: ServerStep, task: Task)
    requires CanStep(s, step) && step.CheckVersion? && WorkerOk(s, s.workers[step.w]) && s.workers[step.w] == Checking(task)
    ensures Do(s, step).files == s.files && !Reporting(PhaseOf(s, task))
  {
  }

  lemma NoRivalRemains(s: State, step: ServerStep, f: File, v: nat, u: nat, n: nat)
    requires ServerInv(s) && TasksOnUnit(s) && CanStep(s, step) && Latest(s, f, v, u, n) && NoRival(s, f, v, n)
    ensures NoRival(Do(s, step), f, v, n)
  {
    hide CanStep, Do, ServerInv, TasksOnUnit, Latest, Rival;
    forall w | 0 <= w < |Do(s, step).workers|
      ensures !Rival(Do(s, step), w, f, v, n)
    {
      if Rival(Do(s, step), w, f, v, n) {
        RivalBefore(s, step, w, f, v, u, n);
      }
    }
  }

  // ---------------------------------------------------------------- the newest answer stays last

  /** Once request n is answered, its answer is the last one and no rival is left. */
  ghost predicate StaysLast(s: State, f: File, v: nat, u: nat, n: nat) {
    && (NoRival(s, f, v, n) || |s.workers| <= 1)
    && (Answered(s, f, v, u, n) ==>
          && NoRival(s, f, v, n)
          && LastOf(s.published, f).Some? && Answers(LastOf(s.published, f).value, f, v, u, n))
  }

  lemma LastOfMore(published: seq<Publication>, p: Publication, f: File)
    ensures LastOf(published + [p], f) == if p.file == f then Some(p) else LastOf(published, f)
  {
    assert (published + [p])[..|published|] == published;
  }

  lemma PublishKeepsLast(s: State, step: ServerStep, f: File, v: nat, u: nat, n: nat)
    requires ServerInv(s) && TasksOnUnit(s) && CanStep(s, step) && step.Publish?
    requires Latest(s, f, v, u, n) && StaysLast(s, f, v, u, n)
    ensures StaysLast(Do(s, step), f, v, u, n)
  {
    hide UnitsOk, OneHandEach, NoOrphans, NothingForgotten, ReportsOk, LastOf, Held;
    var t, p := Do(s, step), s.workers[step.w].publication;
    assert WorkerOk(s, s.workers[step.w]);
    if NoRival(s, f, v, n) {
      NoRivalRemains(s, step, f, v, u, n);
    }
    if !Outdated(s.reported, p) {
      assert t.published == s.published + [p];
      LastOfMore(s.published, p, f);
      if Answered(t, f, v, u, n) && !Answers(p, f, v, u, n) {
        AnsweredBefore(s, t, p, f, v, u, n);
        if p.file == f {
          NothingElseIsPublished(s, step.w, f, v, u, n);
        }
      }
    }
  }

  lemma NothingElseIsPublished(s: State, w: nat, f: File, v: nat, u: nat, n: nat)
    requires HandsOk(s) && ReportsOk(s) && TasksOnUnit(s) && Latest(s, f, v, u, n)
    requires NoRival(s, f, v, n) && Answered(s, f, v, u, n)
    requires w < |s.workers| && s.workers[w].Publishing? && s.workers[w].publication.file == f
    requires !Outdated(s.reported, s.workers[w].publication)
    ensures Answers(s.workers[w].publication, f, v, u, n)
  {
    var p := s.workers[w].publication;
    assert WorkerOk(s, s.workers[w]) && !Rival(s, w, f, v, n);
    OutdatedByTheAnswer(s, p, f, v, u, n);
  }

  lemma AnsweredBefore(s: State, t: State, p: Publication, f: File, v: nat, u: nat, n: nat)
    requires Answered(t, f, v, u, n) && t.published == s.published + [p] && !Answers(p, f, v, u, n)
    ensures Answered(s, f, v, u, n)
  {
    var i :| 0 <= i < |t.published| && Answers(t.published[i], f, v, u, n);
    assert t.published[i] == s.published[i];
  }

  /** After the answer, an older version of the file is no longer published. */
  lemma OutdatedByTheAnswer(s: State, p: Publication, f: File, v: nat, u: nat, n: nat)
    requires ReportsOk(s) && p.file == f && !Outdated(s.reported, p) && Answered(s, f, v, u, n)
    ensures p.version >= v
  {
    var i :| 0 <= i < |s.published| && Answers(s.published[i], f, v, u, n);
  }

  lemma StepKeepsLast(s: State, step: ServerStep, f: File, v: nat, u: nat, n: nat)
    requires ServerInv(s) && TasksOnUnit(s) && CanStep(s, step)
    requires Latest(s, f, v, u, n) && StaysLast(s, f, v, u, n)
    ensures StaysLast(Do(s, step), f, v, u, n)
  {
    hide UnitsOk, HandsOk, OneHandEach, NoOrphans, NothingForgotten, ReportsOk, TasksOnUnit, LastOf, Latest, NoRival, Enabled, Apply;
    if step.Publish? {
      PublishKeepsLast(s, step, f, v, u, n);
    } else if NoRival(s, f, v, n) {
      NoRivalRemains(s, step, f, v, u, n);
    }
  }

  // ---------------------------------------------------------------- from one request to the next

  lemma VersionsGrow(s: State, step: ServerStep, f: File)
    requires CanStep(s, step)
    ensures Version(s.drafts, f) <= Version(Do(s, step).drafts, f)
    ensures Version(s.drafts, f) == Version(Do(s, step).drafts, f) ==> Open(Do(s, step).drafts, f) == Open(s.drafts, f)
  {
    hide Enabled, Apply;
  }

  lemma {:induction false} NothingGoesBack(s: State, steps: seq<ServerStep>, f: File, u: nat)
    requires LegalRun(s, steps)
    ensures Version(s.drafts, f) <= Version(RunServer(s, steps).drafts, f)
    ensures u < |s.files| ==> u < |RunServer(s, steps).files| && Newest(s.files[u]) <= Newest(RunServer(s, steps).files[u])
    decreases |steps|
  {
    hide CanStep, Do, Version;
    if steps != [] {
      VersionsGrow(s, steps[0], f);
      ClosuresStay(s, steps[0]);
      NothingGoesBack(Do(s, steps[0]), steps[1..], f, u);
    }
  }

  lemma UnitOfOpenFileStays(s: State, step: ServerStep, f: File)
    requires ClientOk(s) && CanStep(s, step) && Open(s.drafts, f) && f in s.units
    ensures f in Do(s, step).units && Do(s, step).units[f] == s.units[f]
  {
    hide Enabled, Apply;
  }

  /** What is the latest at both ends of a run is so all along. */
  lemma LatestAfterOneStep(s: State, steps: seq<ServerStep>, f: File, v: nat, u: nat, n: nat)
    requires ClientOk(s) && LegalRun(s, steps) && steps != []
    requires Latest(s, f, v, u, n) && Latest(RunServer(s, steps), f, v, u, n)
    ensures Latest(Do(s, steps[0]), f, v, u, n)
  {
    hide CanStep, Do;
    var t := Do(s, steps[0]);
    VersionsGrow(s, steps[0], f);
    ClosuresStay(s, steps[0]);
    NothingGoesBack(t, steps[1..], f, u);
    UnitOfOpenFileStays(s, steps[0], f);
  }

  lemma {:induction false} RunKeepsLast(s: State, steps: seq<ServerStep>, f: File, v: nat, u: nat, n: nat)
    requires ServerInv(s) && FreshInv(s) && LegalRun(s, steps)
    requires Latest(s, f, v, u, n) && StaysLast(s, f, v, u, n) && Latest(RunServer(s, steps), f, v, u, n)
    ensures StaysLast(RunServer(s, steps), f, v, u, n)
    decreases |steps|
  {
    hide CanStep, Do, UnitsOk, OneHandEach, NoOrphans, NothingForgotten, ReportsOk, TasksOnUnit, PublishedKnown, NewestFirst, Latest,
      StaysLast, WorkerOk, TaskOk, PhaseOf;
    if steps != [] {
      LatestAfterOneStep(s, steps, f, v, u, n);
      StepKeepsLast(s, steps[0], f, v, u, n);
      StepKeepsFreshInv(s, steps[0]);
      RunKeepsLast(Do(s, steps[0]), steps[1..], f, v, u, n);
    }
  }

  lemma AnsweredAtRest(s: State, f: File, v: nat, u: nat, n: nat)
    requires ServerInv(s) && AtRest(s) && Latest(s, f, v, u, n)
    ensures Answered(s, f, v, u, n) && Reported(s.reported, f) == v
  {
    hide UnitsOk, OneHandEach, NoOrphans, ReportsOk;
    assert OpenFilePursued(s, f);
    var i :| 0 <= i < |s.published| && OfNewest(s, f, s.published[i]);
    assert Answers(s.published[i], f, v, u, n);
  }

  /** Some worker has, or is bound to get, diagnostics for version v of f. */
  ghost predicate ResultInHand(s: State, f: File, v: nat) {
    exists w :: 0 <= w < |s.workers| && HoldsResult(s, w, f, v)
  }

  predicate HoldsResult(s: State, w: nat, f: File, v: nat)
    requires w < |s.workers|
  {
    match s.workers[w]
    case Publishing(p) => p.file == f && p.version == v
    case Running(t) =>
      && t.ReparseTask? && t.file == f && t.version == v
      && t.unit < |s.files| && t.request < |s.files[t.unit].closures| && Reporting(PhaseOf(s, t))
    case _ => false
  }

  /** What the server is like right after the request was made. */
  lemma JustRequested(s: State, command: Command, f: File, v: nat, u: nat)
    requires ServerInv(s) && FreshInv(s) && s.client == Resourced(f, v, u) && CanStep(s, DeferRebuild(command))
    ensures var t, n := Do(s, DeferRebuild(command)), Newest(s.files[u]) + 1;
      && Latest(t, f, v, u, n) && !Answered(t, f, v, u, n)
      && t.workers == s.workers && t.client == MustNotify(ReparseTask(f, v, u, n))
      && (forall w :: 0 <= w < |s.workers| ==> (Rival(t, w, f, v, n) <==> HoldsResult(s, w, f, v)))
  {
    hide OneHandEach, NoOrphans, NothingForgotten, ReportsOk, TaskOk, NewestAgrees, NewestWaits, NoLostWakeup, MutualExclusion, ClosureOk;
    var t, n := Do(s, DeferRebuild(command)), Newest(s.files[u]) + 1;
    CounterOfClosures(s.files[u]);
    forall w | 0 <= w < |s.workers|
      ensures Rival(t, w, f, v, n) <==> HoldsResult(s, w, f, v)
    {
      assert WorkerOk(s, s.workers[w]);
      if s.workers[w].Running? {
        RunningIsHeld(s, w, s.workers[w].task);
        HeldIsOk(s, s.workers[w].task);
        RunningTaskIsKnown(s, s.workers[w].task);
      }
      if s.workers[w].Publishing? {
        var p := s.workers[w].publication;
        assert CurrentOnUnit(s, p.file, p.version, p.unit);
      }
    }
  }

  lemma RunningTaskIsKnown(s: State, t: Task)
    requires TaskOk(s, t)
    ensures t.unit < |s.files| && t.request < |s.files[t.unit].closures|
  {
  }

  // ---------------------------------------------------------------- a result that comes too late

  /** The client has nothing to do but hand over what it has registered. */
  predicate HandingOver(c: Client) {
    c.IdleClient? || c.MustNotify? || c.MustPush?
  }

  lemma DrivingKeepsLatest(s: State, step: ServerStep, f: File, v: nat, u: nat, n: nat)
    requires HandingOver(s.client) && CanStep(s, step) && Driving(step) && Latest(s, f, v, u, n)
    ensures HandingOver(Do(s, step).client) && Latest(Do(s, step), f, v, u, n)
    ensures |Do(s, step).workers| == |s.workers|
  {
    if step.ClientNotify? {
      MovedClosure(s.files[s.client.task.unit], NotifyRequest(s.client.task.request));
    } else if step.RunClosure? {
      MovedClosure(s.files[s.workers[step.w].task.unit], step.step);
    }
  }

  lemma FirstStep(s: State, step: ServerStep, rest: seq<ServerStep>)
    requires CanStep(s, step) && Driving(step) && DrivingRun(Do(s, step), rest)
    ensures DrivingRun(s, [step] + rest) && RunServer(s, [step] + rest) == RunServer(Do(s, step), rest)
  {
    hide CanStep, Do, Driving;
    var steps := [step] + rest;
    assert steps[0] == step && steps[1..] == rest;
    assert forall i :: 0 < i < |steps| ==> steps[i] == rest[i - 1];
  }

  lemma {:induction false} RunsInTurn(s: State, first: seq<ServerStep>, second: seq<ServerStep>)
    requires DrivingRun(s, first) && DrivingRun(RunServer(s, first), second)
    ensures DrivingRun(s, first + second) && RunServer(s, first + second) == RunServer(RunServer(s, first), second)
    decreases |first|
  {
    hide CanStep, Do, Driving;
    if first == [] {
      assert first + second == second;
    } else {
      RunsInTurn(Do(s, first[0]), first[1..], second);
      FirstStep(s, first[0], first[1..] + second);
      assert first + second == [first[0]] + (first[1..] + second);
    }
  }

  /** The next step of a closure that will return diagnostics. */
  lemma ReportingMovesOn(s: State, w: nat) returns (step: ServerStep)
    requires ServerInv(s) && w < |s.workers| && s.workers[w].Running? && s.workers[w].task.ReparseTask?
    requires WorkerOk(s, s.workers[w]) && Reporting(PhaseOf(s, s.workers[w].task))
    ensures CanStep(s, step) && Driving(step) && w < |Do(s, step).workers|
    ensures var task, t := s.workers[w].task, Do(s, step);
      if PhaseOf(s, task).Finished? then
        && t.workers[w].Publishing?
        && var p := t.workers[w].publication; Answers(p, task.file, task.version, task.unit, task.request)
      else
        && t.workers[w] == s.workers[w] && TaskOk(t, task) && Reporting(PhaseOf(t, task))
        && Weight(PhaseOf(t, task)) < Weight(PhaseOf(s, task))
  {
    hide UnitsOk, HandsOk, OneHandEach, NoOrphans, NothingForgotten, ReportsOk;
    var task := s.workers[w].task;
    UnitInv(s, task.unit);
    if PhaseOf(s, task).Finished? {
      step := Return(w);
    } else {
      step := RunClosure(w, NextStep(task.request, PhaseOf(s, task)));
      MovedClosure(s.files[task.unit], step.step);
    }
  }

  lemma UnitInv(s: State, unit: nat)
    requires UnitsOk(s) && unit < |s.files|
    ensures RebuildProtocol.Inv(s.files[unit])
  {
  }

  lemma {:induction false} ResultIsBrought(s: State, w: nat, f: File, v: nat, u: nat, n: nat) returns (steps: seq<ServerStep>)
    requires ServerInv(s) && HandingOver(s.client) && Latest(s, f, v, u, n)
    requires w < |s.workers| && Rival(s, w, f, v, n)
    ensures DrivingRun(s, steps)
    ensures var t := RunServer(s, steps);
      && ServerInv(t) && HandingOver(t.client) && Latest(t, f, v, u, n) && |t.workers| == |s.workers|
      && t.workers[w].Publishing? && Rival(t, w, f, v, n)
    decreases if s.workers[w].Publishing? then 0 else 1 + Weight(PhaseOf(s, s.workers[w].task))
  {
    hide CanStep, Do, ServerInv, Latest, Driving, Reporting;
    if s.workers[w].Publishing? {
      steps := [];
    } else {
      RivalIsOk(s, w, f, v, n);
      var step := ReportingMovesOn(s, w);
      ServerStepKeepsInv(s, step);
      DrivingKeepsLatest(s, step, f, v, u, n);
      var rest := ResultIsBrought(Do(s, step), w, f, v, u, n);
      FirstStep(s, step, rest);
      steps := [step] + rest;
    }
  }

  lemma RivalIsOk(s: State, w: nat, f: File, v: nat, n: nat)
    requires ServerInv(s) && w < |s.workers| && Rival(s, w, f, v, n)
    ensures WorkerOk(s, s.workers[w])
  {
  }

  /** Everybody but worker w is done. */
  ghost predicate AtRestBut(s: State, w: nat) {
    && s.client.IdleClient? && s.queue == []
    && forall i :: 0 <= i < |s.workers| && i != w ==> s.workers[i].IdleWorker?
  }

  /** While one worker holds back its publication, the others are never stuck. */
  lemma OthersNeverStuck(s: State, w: nat) returns (step: ServerStep)
    requires ServerInv(s) && |s.workers| > 1 && w < |s.workers| && s.workers[w].Publishing? && !AtRestBut(s, w)
    ensures Driving(step) && CanStep(s, step) && (WorkerStep(step) ==> step.w != w)
  {
    hide UnitsOk, OneHandEach, NoOrphans, NothingForgotten, ReportsOk, Enabled;
    if !s.client.IdleClient? {
      step := BusyClientCanStep(s);
    } else if i :| 0 <= i < |s.workers| && i != w && !s.workers[i].IdleWorker? {
      assert WorkerOk(s, s.workers[i]);
      if s.workers[i].Running? && PhaseOf(s, s.workers[i].task).Asleep? {
        step := SleeperHasAHelper(s, i);
      } else {
        step := AwakeWorkerCanStep(s, i);
      }
    } else {
      step := Take(if w == 0 then 1 else 0);
    }
  }

  lemma OtherStepKeepsWorker(s: State, step: ServerStep, w: nat)
    requires CanStep(s, step) && w < |s.workers| && (WorkerStep(step) ==> step.w != w)
    ensures w < |Do(s, step).workers| && Do(s, step).workers[w] == s.workers[w]
  {
    hide Enabled, Apply;
  }

  lemma {:induction false} OthersComeToRest(s: State, w: nat, f: File, v: nat, u: nat, n: nat) returns (steps: seq<ServerStep>)
    requires ServerInv(s) && HandingOver(s.client) && Latest(s, f, v, u, n)
    requires |s.workers| > 1 && w < |s.workers| && s.workers[w].Publishing?
    ensures DrivingRun(s, steps)
    ensures var t := RunServer(s, steps);
      && ServerInv(t) && Latest(t, f, v, u, n) && AtRestBut(t, w)
      && |t.workers| == |s.workers| && t.workers[w] == s.workers[w]
    decreases Potential(s)
  {
    hide CanStep, Do, ServerInv, Latest, Driving, Potential, WorkerStep, AtRestBut;
    if AtRestBut(s, w) {
      steps := [];
    } else {
      var step := OthersNeverStuck(s, w);
      ServerStepKeepsInv(s, step);
      DrivingKeepsLatest(s, step, f, v, u, n);
      OtherStepKeepsWorker(s, step, w);
      DrivingStepsLowerThePotential(s, step);
      var rest := OthersComeToRest(Do(s, step), w, f, v, u, n);
      FirstStep(s, step, rest);
      steps := [step] + rest;
    }
  }

  /** The late result is published after the answer. */
  lemma LateResultIsLast(s: State, w: nat, f: File, v: nat, u: nat, n: nat)
    requires ServerInv(s) && Latest(s, f, v, u, n) && AtRestBut(s, w)
    requires w < |s.workers| && s.workers[w].Publishing? && Rival(s, w, f, v, n)
    ensures CanStep(s, Publish(w))
    ensures var t := Do(s, Publish(w));
      && AtRest(t) && Latest(t, f, v, u, n)
      && LastOf(t.published, f).Some? && LastOf(t.published, f).value.request != n
  {
    hide UnitsOk, HandsOk, OneHandEach, NoOrphans, LastOf, ReportsOk;
    var p := s.workers[w].publication;
    assert OpenFilePursued(s, f);
    assert Reported(s.reported, f) == v;
    LastOfMore(s.published, p, f);
  }

  /** The last publication of f answers the newest request. */
  predicate LastIsNewest(s: State, f: File) {
    && f in s.units && s.units[f] < |s.files| && LastOf(s.published, f).Some?
    && var p := LastOf(s.published, f).value;
       p.version == Version(s.drafts, f) && p.unit == s.units[f] && p.request == s.files[s.units[f]].file.rebuildCounter
  }

  /** With a result for the same version in some worker's hands when a request is made, and a second
      worker, there is a schedule that publishes that older result last. */
  lemma LateResultComesLast(s: State, command: Command, f: File, v: nat, u: nat) returns (steps: seq<ServerStep>)
    requires ServerInv(s) && FreshInv(s) && s.client == Resourced(f, v, u) && CanStep(s, DeferRebuild(command))
    requires |s.workers| > 1 && ResultInHand(s, f, v)
    ensures var t := Do(s, DeferRebuild(command));
      && DrivingRun(t, steps) && AtRest(RunServer(t, steps))
      && Latest(RunServer(t, steps), f, v, u, Newest(s.files[u]) + 1) && !LastIsNewest(RunServer(t, steps), f)
  {
    hide ServerInv, FreshInv, Do, Rival, LastOf, HoldsResult, AtRest, AtRestBut;
    var t, n := Do(s, DeferRebuild(command)), Newest(s.files[u]) + 1;
    ServerStepKeepsInv(s, DeferRebuild(command));
    JustRequested(s, command, f, v, u);
    var w :| 0 <= w < |s.workers| && HoldsResult(s, w, f, v);
    var first := ResultIsBrought(t, w, f, v, u, n);
    var t1 := RunServer(t, first);
    var second := OthersComeToRest(t1, w, f, v, u, n);
    var t2 := RunServer(t1, second);
    RivalOfWorker(t1, t2, w, f, v, n);
    LateResultIsLast(t2, w, f, v, u, n);
    var last := [Publish(w)];
    PublishAlone(t2, w);
    RunsInTurn(t1, second, last);
    RunsInTurn(t, first, second + last);
    steps := first + (second + last);
  }

  lemma PublishAlone(s: State, w: nat)
    requires CanStep(s, Publish(w))
    ensures DrivingRun(s, [Publish(w)]) && RunServer(s, [Publish(w)]) == Do(s, Publish(w))
  {
    ServerProgress.OneStep(s, Publish(w));
  }

  lemma RivalOfWorker(s: State, t: State, w: nat, f: File, v: nat, n: nat)
    requires w < |s.workers| && w < |t.workers| && s.workers[w] == t.workers[w] && s.workers[w].Publishing?
    ensures Rival(s, w, f, v, n) == Rival(t, w, f, v, n)
  {
  }

  /** The other way round: with no such result about, or a single worker, every schedule ends with
      the answer to that request. */
  lemma AnswerComesLast(s: State, command: Command, f: File, v: nat, u: nat, steps: seq<ServerStep>)
    requires ServerInv(s) && FreshInv(s) && s.client == Resourced(f, v, u) && CanStep(s, DeferRebuild(command))
    requires |s.workers| <= 1 || !ResultInHand(s, f, v)
    requires var t := Do(s, DeferRebuild(command));
      LegalRun(t, steps) && AtRest(RunServer(t, steps)) && Latest(RunServer(t, steps), f, v, u, Newest(s.files[u]) + 1)
    ensures LastIsNewest(RunServer(Do(s, DeferRebuild(command)), steps), f)
  {
    hide ServerInv, FreshInv, Do, Rival, LastOf, HoldsResult, AtRest, Answered;
    var t, n := Do(s, DeferRebuild(command)), Newest(s.files[u]) + 1;
    StepKeepsFreshInv(s, DeferRebuild(command));
    JustRequested(s, command, f, v, u);
    RunKeepsLast(t, steps, f, v, u, n);
    RunKeepsFreshInv(t, steps);
    AnsweredAtRest(RunServer(t, steps), f, v, u, n);
  }

  /** When the client is about to make a request for version v of f, and makes none for f after it:
      every schedule that comes to rest ends with that request's publication exactly if there is only
      one worker or no worker holds, or is bound to get, an older result for v. */
  lemma NewestIsPublishedLastIff(workers: nat, run: seq<ServerStep>, command: Command, f: File, v: nat, u: nat)
    requires LegalRun(Start(workers), run)
    requires RunServer(Start(workers), run).client == Resourced(f, v, u)
    requires CanStep(RunServer(Start(workers), run), DeferRebuild(command))
    ensures var s := RunServer(Start(workers), run);
      var t := Do(s, DeferRebuild(command));
      (forall steps | LegalRun(t, steps) && AtRest(RunServer(t, steps))
                      && Latest(RunServer(t, steps), f, v, u, Newest(s.files[u]) + 1) ::
         LastIsNewest(RunServer(t, steps), f))
      <==> workers <= 1 || !ResultInHand(s, f, v)
  {
    hide ServerInv, FreshInv, Do, HoldsResult, ResultInHand, AtRest, LastIsNewest, Latest, LegalRun, RunServer;
    var s := RunServer(Start(workers), run);
    StartIsFine(workers);
    StartIsFresh(workers);
    RunKeepsFreshInv(Start(workers), run);
    WorkersStay(Start(workers), run);
    var t := Do(s, DeferRebuild(command));
    if workers <= 1 || !ResultInHand(s, f, v) {
      forall steps | LegalRun(t, steps) && AtRest(RunServer(t, steps))
                     && Latest(RunServer(t, steps), f, v, u, Newest(s.files[u]) + 1)
        ensures LastIsNewest(RunServer(t, steps), f)
      {
        AnswerComesLast(s, command, f, v, u, steps);
      }
    } else {
      var steps := LateResultComesLast(s, command, f, v, u);
    }
  }

  // ---------------------------------------------------------------- whole runs

  lemma {:induction false} RestOfRun(s: State, steps: seq<ServerStep>, i: nat)
    requires LegalRun(s, steps) && i <= |steps|
    ensures LegalRun(s, steps[..i]) && LegalRun(RunServer(s, steps[..i]), steps[i..])
    ensures RunServer(RunServer(s, steps[..i]), steps[i..]) == RunServer(s, steps)
    decreases i
  {
    hide CanStep, Do;
    if i == 0 {
      assert steps[..0] == [] && steps[0..] == steps;
    } else {
      RestOfRun(Do(s, steps[0]), steps[1..], i - 1);
      assert steps[..i][1..] == steps[1..][..i - 1] && steps[1..][i - 1..] == steps[i..];
    }
  }

  /** At rest, every open file has been published at its current version, in answer to the newest
      request of its CppFile, made at step i of the run; and that was the file's last publication if
      there is one worker or no older result for the version was about at step i. */
  lemma RestingServerHasAnswered(workers: nat, run: seq<ServerStep>, f: File) returns (i: nat)
    requires LegalRun(Start(workers), run) && AtRest(RunServer(Start(workers), run))
    requires Open(RunServer(Start(workers), run).drafts, f)
    ensures i < |run| && run[i].DeferRebuild?
    ensures var s, t := At(workers, run, i), RunServer(Start(workers), run);
      && f in t.units && t.units[f] < |t.files| && t.units[f] < |s.files|
      && s.client == Resourced(f, Version(t.drafts, f), t.units[f])
      && Newest(t.files[t.units[f]]) == Newest(s.files[t.units[f]]) + 1
      && Answered(t, f, Version(t.drafts, f), t.units[f], Newest(t.files[t.units[f]]))
      && (workers <= 1 || !ResultInHand(s, f, Version(t.drafts, f)) ==> LastIsNewest(t, f))
  {
    hide ServerInv, FreshInv, RunServer, LegalRun, Answered, ResultInHand, LastIsNewest, Do, At, DiagnosticsOf, FoundCurrent, StepsOf;
    var t := RunServer(Start(workers), run);
    StartIsFine(workers);
    StartIsFresh(workers);
    RunKeepsFreshInv(Start(workers), run);
    WorkersStay(Start(workers), run);
    var v, u, n := LatestAtRest(t, f);
    AnsweredAtRest(t, f, v, u, n);
    i := RequestOfAnswer(workers, run, f, v, u, n);
    var s := At(workers, run, i);
    AtIsPrefix(workers, run, i);
    if workers <= 1 || !ResultInHand(s, f, v) {
      RunKeepsFreshInv(Start(workers), run[..i]);
      WorkersStay(Start(workers), run[..i]);
      RestOfRun(Start(workers), run, i);
      FirstOfRest(s, run[i..]);
      AnswerComesLast(s, run[i].command, f, v, u, run[i..][1..]);
    }
  }

  lemma FirstOfRest(s: State, steps: seq<ServerStep>)
    requires LegalRun(s, steps) && steps != []
    ensures CanStep(s, steps[0]) && LegalRun(Do(s, steps[0]), steps[1..])
    ensures RunServer(Do(s, steps[0]), steps[1..]) == RunServer(s, steps)
  {
    hide CanStep, Do;
  }

  lemma AtIsPrefix(workers: nat, run: seq<ServerStep>, i: nat)
    requires LegalRun(Start(workers), run) && i <= |run|
    ensures LegalRun(Start(workers), run[..i]) && At(workers, run, i) == RunServer(Start(workers), run[..i])
  {
    LegalPrefix(Start(workers), run, i);
  }

  lemma LatestAtRest(s: State, f: File) returns (v: nat, u: nat, n: nat)
    requires ServerInv(s) && AtRest(s) && Open(s.drafts, f)
    ensures Latest(s, f, v, u, n)
  {
    hide UnitsOk, HandsOk, OneHandEach, NoOrphans, ReportsOk;
    assert OpenFilePursued(s, f);
    v, u := Version(s.drafts, f), s.units[f];
    n := Newest(s.files[u]);
  }

  lemma RequestOfAnswer(workers: nat, run: seq<ServerStep>, f: File, v: nat, u: nat, n: nat) returns (i: nat)
    requires LegalRun(Start(workers), run) && Answered(RunServer(Start(workers), run), f, v, u, n)
    ensures i < |run| && run[i].DeferRebuild?
    ensures var s := At(workers, run, i);
      s.client == Resourced(f, v, u) && u < |s.files| && n == Newest(s.files[u]) + 1
  {
    hide RunServer, LegalRun, At, DiagnosticsOf, FoundCurrent, StepsOf;
    var t := RunServer(Start(workers), run);
    var j :| 0 <= j < |t.published| && Answers(t.published[j], f, v, u, n);
    PublicationsAreFounded(workers, run, j);
    i :| 0 <= i < |run| && run[i].DeferRebuild? &&
      var s := At(workers, run, i);
      s.client == Resourced(f, v, u) && u < |s.files| && n == s.files[u].file.rebuildCounter + 1;
  }

  /** With one worker nothing comes too late, whatever is reparsed and how often. */
  lemma OneWorkerPublishesTheNewestLast(run: seq<ServerStep>, f: File)
    requires LegalRun(Start(1), run) && AtRest(RunServer(Start(1), run)) && Open(RunServer(Start(1), run).drafts, f)
    ensures LastIsNewest(RunServer(Start(1), run), f)
  {
    hide RunServer, LegalRun, Answered, ResultInHand, LastIsNewest, At, AtRest;
    var i := RestingServerHasAnswered(1, run, f);
  }

  // ---------------------------------------------------------------- a schedule with a late result

  lemma LegalFirst(s: State, steps: seq<ServerStep>, t: State)
    requires steps != [] && CanStep(s, steps[0]) && t == Do(s, steps[0]) && LegalRun(t, steps[1..])
    ensures LegalRun(s, steps) && RunServer(s, steps) == RunServer(t, steps[1..])
  {
  }

  /** A document is added, its rebuild has published a preamble, and the client asks for a reparse
      of the same version. */
  function ReparseWhileRebuilding(f: File, command: Command): seq<ServerStep> {
    [UpdateDraft(f, ""), GetOrCreateFile, DeferRebuild(command), ClientNotify, AddToFront, Take(0), CheckVersion(0),
     RunClosure(0, StartClosure(1)), RunClosure(0, BuildPreamble(1, None)), FetchDraft(f), GetOrCreateFile]
  }

  /** The server with the one document added and its CppFile in state p. */
  function WithOneFile(f: File, p: Protocol, queue: seq<Task>, worker: Worker, client: Client): State {
    State(map[f := Draft(1, Some(""))], map[f := 0], [p], queue, [worker, IdleWorker], client, map[], [])
  }

  /** The CppFile after the request, the notification, the guard's construction and the preamble. */
  function StagesOf(command: Command): (stages: seq<Protocol>)
    ensures |stages| == 4
  {
    var requested := Protocol(Registered(Created(), Some(command)), Initial.closures + [Closure(Rebuild(None), Notifying)]);
    var notified := requested.(closures := requested.closures[1 := Closure(Rebuild(None), Deferred)]);
    var admitted := Protocol(Entered(notified.file), notified.closures[1 := Closure(Rebuild(None), BuildingPreamble)]);
    var built := Protocol(PreamblePublished(admitted.file, 1, None),
                          admitted.closures[1 := Closure(Rebuild(None), BuildingAst(None))]);
    [requested, notified, admitted, built]
  }

  lemma StagesFollow(command: Command)
    ensures var ps := StagesOf(command);
      && ps[0] == Apply(Initial, RequestRebuild(command))
      && Enabled(ps[0], NotifyRequest(1)) && ps[0].file.Shaped() && ps[1] == Apply(ps[0], NotifyRequest(1))
      && Enabled(ps[1], StartClosure(1)) && ps[1].file.Shaped() && ps[2] == Apply(ps[1], StartClosure(1))
      && Enabled(ps[2], BuildPreamble(1, None)) && ps[2].file.Shaped() && ps[3] == Apply(ps[2], BuildPreamble(1, None))
      && ps[0].file.rebuildCounter == 1 && ps[3].file.Shaped() && |ps[3].closures| == 2
      && ps[3].closures[1].phase == BuildingAst(None)
  {
    var ps := StagesOf(command);
    assert ps[1].closures == WakeAll(To(ps[0].closures, 1, Deferred));
    assert ps[2].closures == To(ps[1].closures, 1, BuildingPreamble);
  }

  lemma AddingTheDocument(f: File, command: Command)
    ensures var task, ps := ReparseTask(f, 1, 0, 1), StagesOf(command);
      var s1 := Start(2).(drafts := map[f := Draft(1, Some(""))], client := Drafted(f, 1));
      var s2 := WithOneFile(f, Initial, [], IdleWorker, Resourced(f, 1, 0));
      var s3 := WithOneFile(f, ps[0], [], IdleWorker, MustNotify(task));
      && CanStep(Start(2), UpdateDraft(f, "")) && Do(Start(2), UpdateDraft(f, "")) == s1
      && CanStep(s1, GetOrCreateFile) && Do(s1, GetOrCreateFile) == s2
      && CanStep(s2, DeferRebuild(command)) && Do(s2, DeferRebuild(command)) == s3
  {
    hide StagesOf;
    StagesFollow(command);
  }

  lemma QueueingTheRequest(f: File, command: Command)
    ensures var task, ps := ReparseTask(f, 1, 0, 1), StagesOf(command);
      var s3 := WithOneFile(f, ps[0], [], IdleWorker, MustNotify(task));
      var s4 := WithOneFile(f, ps[1], [], IdleWorker, MustPush(task));
      var s5 := WithOneFile(f, ps[1], [task], IdleWorker, IdleClient);
      && CanStep(s3, ClientNotify) && Do(s3, ClientNotify) == s4
      && CanStep(s4, AddToFront) && Do(s4, AddToFront) == s5
  {
    hide Apply, Enabled, StagesOf;
    StagesFollow(command);
  }

  lemma TakingTheRequest(f: File, p: Protocol)
    ensures var task := ReparseTask(f, 1, 0, 1);
      var s5 := WithOneFile(f, p, [task], IdleWorker, IdleClient);
      var s6 := WithOneFile(f, p, [], Checking(task), IdleClient);
      var s7 := WithOneFile(f, p, [], Running(task), IdleClient);
      && CanStep(s5, Take(0)) && Do(s5, Take(0)) == s6
      && CanStep(s6, CheckVersion(0)) && Do(s6, CheckVersion(0)) == s7
  {
  }

  lemma BuildingThePreamble(f: File, command: Command)
    ensures var task, ps := ReparseTask(f, 1, 0, 1), StagesOf(command);
      var s7 := WithOneFile(f, ps[1], [], Running(task), IdleClient);
      var s8 := WithOneFile(f, ps[2], [], Running(task), IdleClient);
      var s9 := WithOneFile(f, ps[3], [], Running(task), IdleClient);
      && CanStep(s7, RunClosure(0, StartClosure(1))) && Do(s7, RunClosure(0, StartClosure(1))) == s8
      && CanStep(s8, RunClosure(0, BuildPreamble(1, None))) && Do(s8, RunClosure(0, BuildPreamble(1, None))) == s9
  {
    hide Apply, Enabled, StagesOf;
    StagesFollow(command);
  }

  lemma ForcingAReparse(f: File, command: Command)
    ensures var task, p := ReparseTask(f, 1, 0, 1), StagesOf(command)[3];
      var s9 := WithOneFile(f, p, [], Running(task), IdleClient);
      var s10 := WithOneFile(f, p, [], Running(task), Drafted(f, 1));
      var s11 := WithOneFile(f, p, [], Running(task), Resourced(f, 1, 0));
      && CanStep(s9, FetchDraft(f)) && Do(s9, FetchDraft(f)) == s10
      && CanStep(s10, GetOrCreateFile) && Do(s10, GetOrCreateFile) == s11
      && CanStep(s11, DeferRebuild(command)) && HoldsResult(s11, 0, f, 1)
  {
    hide Apply, StagesOf;
    StagesFollow(command);
  }

  lemma ScheduleOfReparse(f: File, command: Command)
    ensures LegalRun(Start(2), ReparseWhileRebuilding(f, command))
    ensures var s := RunServer(Start(2), ReparseWhileRebuilding(f, command));
      && s.client == Resourced(f, 1, 0) && CanStep(s, DeferRebuild(command))
      && |s.workers| == 2 && HoldsResult(s, 0, f, 1)
  {
    hide StagesOf, CanStep, Do, Start, HoldsResult;
    var steps, task, ps := ReparseWhileRebuilding(f, command), ReparseTask(f, 1, 0, 1), StagesOf(command);
    AddingTheDocument(f, command);
    QueueingTheRequest(f, command);
    TakingTheRequest(f, ps[1]);
    BuildingThePreamble(f, command);
    ForcingAReparse(f, command);
    var s3 := WithOneFile(f, ps[0], [], IdleWorker, MustNotify(task));
    var s9 := WithOneFile(f, ps[3], [], Running(task), IdleClient);
    var s11 := WithOneFile(f, ps[3], [], Running(task), Resourced(f, 1, 0));
    assert steps[11..] == [] && LegalRun(s11, steps[11..]) && RunServer(s11, steps[11..]) == s11;
    LegalFirst(Do(s9, steps[9]), steps[10..], s11);
    LegalFirst(s9, steps[9..], Do(s9, steps[9]));
    FromTheQueue(steps, ps, task, f);
    LegalFirst(Do(s3, steps[3]), steps[4..], WithOneFile(f, ps[1], [task], IdleWorker, IdleClient));
    LegalFirst(s3, steps[3..], Do(s3, steps[3]));
    FromTheStart(steps, f, s3);
  }

  lemma FromTheQueue(steps: seq<ServerStep>, ps: seq<Protocol>, task: Task, f: File)
    requires |steps| == 11 && |ps| == 4
    requires var s5 := WithOneFile(f, ps[1], [task], IdleWorker, IdleClient);
      var s6 := WithOneFile(f, ps[1], [], Checking(task), IdleClient);
      var s7 := WithOneFile(f, ps[1], [], Running(task), IdleClient);
      var s8 := WithOneFile(f, ps[2], [], Running(task), IdleClient);
      var s9 := WithOneFile(f, ps[3], [], Running(task), IdleClient);
      && CanStep(s5, steps[5]) && Do(s5, steps[5]) == s6 && CanStep(s6, steps[6]) && Do(s6, steps[6]) == s7
      && CanStep(s7, steps[7]) && Do(s7, steps[7]) == s8 && CanStep(s8, steps[8]) && Do(s8, steps[8]) == s9
      && LegalRun(s9, steps[9..])
    ensures var s5, s9 := WithOneFile(f, ps[1], [task], IdleWorker, IdleClient),
                          WithOneFile(f, ps[3], [], Running(task), IdleClient);
      LegalRun(s5, steps[5..]) && RunServer(s5, steps[5..]) == RunServer(s9, steps[9..])
  {
    hide CanStep, Do;
    var s7 := WithOneFile(f, ps[1], [], Running(task), IdleClient);
    LegalFirst(Do(s7, steps[7]), steps[8..], WithOneFile(f, ps[3], [], Running(task), IdleClient));
    LegalFirst(s7, steps[7..], Do(s7, steps[7]));
    var s5 := WithOneFile(f, ps[1], [task], IdleWorker, IdleClient);
    LegalFirst(Do(s5, steps[5]), steps[6..], s7);
    LegalFirst(s5, steps[5..], Do(s5, steps[5]));
  }

  lemma FromTheStart(steps: seq<ServerStep>, f: File, s3: State)
    requires |steps| == 11 && CanStep(Start(2), steps[0]) && CanStep(Do(Start(2), steps[0]), steps[1])
    requires var s2 := Do(Do(Start(2), steps[0]), steps[1]); CanStep(s2, steps[2]) && Do(s2, steps[2]) == s3
    requires LegalRun(s3, steps[3..])
    ensures LegalRun(Start(2), steps) && RunServer(Start(2), steps) == RunServer(s3, steps[3..])
  {
    hide CanStep, Do;
    var s1 := Do(Start(2), steps[0]);
    var s2 := Do(s1, steps[1]);
    LegalFirst(s2, steps[2..], s3);
    LegalFirst(s1, steps[1..], s2);
    LegalFirst(Start(2), steps, s1);
  }

  /** The promise is broken: adding a document and forcing a reparse of it while its AST is being
      built may end with the diagnostics of the older request published last. */
  lemma ForcedReparseMayBeOvertaken(f: File, command: Command) returns (steps: seq<ServerStep>)
    ensures LegalRun(Start(2), ReparseWhileRebuilding(f, command))
    ensures var s := RunServer(Start(2), ReparseWhileRebuilding(f, command));
      && CanStep(s, DeferRebuild(command)) && DrivingRun(Do(s, DeferRebuild(command)), steps)
      && var t := RunServer(Do(s, DeferRebuild(command)), steps);
         AtRest(t) && Open(t.drafts, f) && !LastIsNewest(t, f)
  {
    hide RunServer, LegalRun, ServerInv, FreshInv, CanStep, Do, Start, LastIsNewest, HoldsResult;
    var run := ReparseWhileRebuilding(f, command);
    ScheduleOfReparse(f, command);
    StartIsFine(2);
    StartIsFresh(2);
    RunKeepsFreshInv(Start(2), run);
    steps := LateResultComesLast(RunServer(Start(2), run), command, f, 1, 0);
  }
}
