/** Which request the last publication of a file answers once the server is at rest. */
module ServerFreshness {
  import opened Options
  import opened CppFiles
  import opened RebuildProtocol
  import opened RebuildSafety
  import opened RebuildProgress
  import opened ServerTables
  import opened ServerProtocol
  import opened ServerProofs
  import opened ServerTheorems
  import opened ServerProgress
  import opened ServerPublications

  // ---------------------------------------------------------------- tasks of current versions

  /** A current version belongs to an open file, and what is current is on the file's CppFile. */
  predicate CurrentOnUnit(s: State, f: File, version: nat, unit: nat) {
    version == Version(s.drafts, f) ==> Open(s.drafts, f) && f in s.units && s.units[f] == unit
  }

  ghost predicate TasksOnUnit(s: State) {
    && (forall t :: Held(s, t) && t.ReparseTask? ==> CurrentOnUnit(s, t.file, t.version, t.unit))
    && (forall w :: 0 <= w < |s.workers| && s.workers[w].Publishing? ==>
          var p := s.workers[w].publication; CurrentOnUnit(s, p.file, p.version, p.unit))
  }

  ghost predicate PublishedKnown(s: State) {
    forall i :: 0 <= i < |s.published| ==> PublicationOk(s, s.published[i])
  }

  /** The client holds the newest request of its file, and of two waiting requests of one file the
      newer one is nearer to the front. */
  predicate NewestFirst(s: State) {
    && (ClientTask(s.client).Some? ==>
          var t := s.client.task; t.unit < |s.files| && t.request == Newest(s.files[t.unit]))
    && (forall i, j :: 0 <= i < j < |s.queue| && s.queue[i].unit == s.queue[j].unit ==>
          s.queue[i].request > s.queue[j].request)
  }

  ghost predicate FreshInv(s: State) {
    TasksOnUnit(s) && PublishedKnown(s) && NewestFirst(s)
  }

  lemma HeldIsOk(s: State, t: Task)
    requires HandsOk(s) && Held(s, t)
    ensures TaskOk(s, t)
  {
    if t in s.queue {
      var i :| 0 <= i < |s.queue| && s.queue[i] == t;
    } else if ClientTask(s.client) != Some(t) {
      var w :| 0 <= w < |s.workers| && WorkerTask(s.workers[w]) == Some(t);
      assert WorkerOk(s, s.workers[w]);
    }
  }

  lemma CurrentStaysOnUnit(s: State, step: ServerStep, f: File, version: nat, unit: nat)
    requires ClientOk(s) && CanStep(s, step)
    requires CurrentOnUnit(s, f, version, unit) && version <= Version(s.drafts, f)
    ensures CurrentOnUnit(Do(s, step), f, version, unit)
  {
    hide Enabled, Apply;
  }

  lemma TasksStayOnUnit(s: State, step: ServerStep)
    requires HandsOk(s) && TasksOnUnit(s) && CanStep(s, step)
    ensures TasksOnUnit(Do(s, step))
  {
    hide Enabled, Apply, CanStep, Do, Held, CurrentOnUnit, TaskOk;
    var after := Do(s, step);
    forall t | Held(after, t) && t.ReparseTask?
      ensures CurrentOnUnit(after, t.file, t.version, t.unit)
    {
      HeldBefore(s, step, t);
      if Held(s, t) {
        HeldIsOk(s, t);
        VersionOfTask(s, t);
        CurrentStaysOnUnit(s, step, t.file, t.version, t.unit);
      } else {
        NewTaskIsOnUnit(s, step, t);
      }
    }
    forall w | 0 <= w < |after.workers| && after.workers[w].Publishing?
      ensures var p := after.workers[w].publication; CurrentOnUnit(after, p.file, p.version, p.unit)
    {
      PublishingBefore(s, step, w);
      var p := after.workers[w].publication;
      assert WorkerOk(s, s.workers[w]);
      if s.workers[w] != after.workers[w] {
        var task := ReparseTask(p.file, p.version, p.unit, p.request);
        RunningIsHeld(s, w, task);
        VersionOfTask(s, task);
      }
      CurrentStaysOnUnit(s, step, p.file, p.version, p.unit);
    }
  }

  lemma RunningIsHeld(s: State, w: nat, t: Task)
    requires w < |s.workers| && s.workers[w] == Running(t)
    ensures Held(s, t)
  {
    assert WorkerTask(s.workers[w]) == Some(t);
  }

  lemma VersionOfTask(s: State, t: Task)
    requires TaskOk(s, t) && t.ReparseTask?
    ensures t.version <= Version(s.drafts, t.file)
  {
  }

  lemma NewTaskIsOnUnit(s: State, step: ServerStep, t: Task)
    requires ClientOk(s) && CanStep(s, step) && step.DeferRebuild? && t.ReparseTask?
    requires s.client == Resourced(t.file, t.version, t.unit)
    ensures CurrentOnUnit(Do(s, step), t.file, t.version, t.unit)
  {
    hide Apply;
  }

  lemma PublishedStaysKnown(s: State, step: ServerStep)
    requires HandsOk(s) && PublishedKnown(s) && CanStep(s, step)
    ensures PublishedKnown(Do(s, step))
  {
    hide CanStep, Do;
    var after := Do(s, step);
    ClosuresStay(s, step);
    forall i | 0 <= i < |after.published|
      ensures PublicationOk(after, after.published[i])
    {
      PublishedBefore(s, step, i);
      if i >= |s.published| {
        assert WorkerOk(s, s.workers[step.w]);
      }
    }
  }

  /** Files and their closures are never dropped, and requests are only added. */
  lemma ClosuresStay(s: State, step: ServerStep)
    requires CanStep(s, step)
    ensures |s.files| <= |Do(s, step).files|
    ensures forall u :: 0 <= u < |s.files| ==>
      && |s.files[u].closures| <= |Do(s, step).files[u].closures|
      && Newest(s.files[u]) <= Newest(Do(s, step).files[u])
  {
    hide CanStep, Do, Apply, FileStep, Share;
    FileStepIsAll(s, step);
    forall u | 0 <= u < |s.files|
      ensures |s.files[u].closures| <= |Do(s, step).files[u].closures|
      ensures Newest(s.files[u]) <= Newest(Do(s, step).files[u])
    {
      if Share(s, step, u) != [] {
        ClosuresStayInFile(s.files[u], Share(s, step, u)[0]);
      }
    }
  }

  lemma ClosuresStayInFile(p: Protocol, step: Step)
    requires p.file.Shaped() && Enabled(p, step)
    ensures |p.closures| <= |Apply(p, step).closures| && Newest(p) <= Newest(Apply(p, step))
  {
  }

  lemma PushKeepsOrder(task: Task, queue: seq<Task>)
    requires forall i, j :: 0 <= i < j < |queue| && queue[i].unit == queue[j].unit ==> queue[i].request > queue[j].request
    requires forall j :: 0 <= j < |queue| && queue[j].unit == task.unit ==> task.request > queue[j].request
    ensures var pushed := Pushed(queue, task);
      forall i, j :: 0 <= i < j < |pushed| && pushed[i].unit == pushed[j].unit ==> pushed[i].request > pushed[j].request
  {
    var pushed := Pushed(queue, task);
    assert forall i :: 0 < i < |pushed| ==> pushed[i] == queue[i - 1];
  }

  lemma PushedFirst(s: State)
    requires UnitsOk(s) && HandsOk(s) && OneHandEach(s) && NewestFirst(s) && CanStep(s, AddToFront)
    ensures NewestFirst(Do(s, AddToFront))
  {
    hide Pushed, RebuildProtocol.Inv;
    var task, queue := s.client.task, s.queue;
    forall j | 0 <= j < |queue| && queue[j].unit == task.unit
      ensures task.request > queue[j].request
    {
      assert TaskOk(s, queue[j]);
      CounterOfClosures(s.files[task.unit]);
      assert !Clash(Some(task), Some(queue[j]));
    }
    PushKeepsOrder(task, queue);
  }

  lemma CounterOfClosures(p: Protocol)
    requires RebuildProtocol.Inv(p)
    ensures |p.closures| == Newest(p) + 1
  {
  }

  lemma ClientStepsKeepNewestFirst(s: State, step: ServerStep)
    requires NewestFirst(s) && CanStep(s, step)
    requires step.DeferRebuild? || step.DeferCancel? || step.ClientNotify? || step.RunClosure?
    ensures NewestFirst(Do(s, step))
  {
    var t := Do(s, step);
    assert t.queue == s.queue;
    if step.ClientNotify? {
      MovedClosure(s.files[s.client.task.unit], NotifyRequest(s.client.task.request));
    } else if step.RunClosure? {
      MovedClosure(s.files[s.workers[step.w].task.unit], step.step);
    }
  }

  lemma NewestStaysFirst(s: State, step: ServerStep)
    requires UnitsOk(s) && HandsOk(s) && OneHandEach(s) && NewestFirst(s) && CanStep(s, step)
    ensures NewestFirst(Do(s, step))
  {
    var t := Do(s, step);
    if step.AddToFront? {
      PushedFirst(s);
    } else if step.DeferRebuild? || step.DeferCancel? || step.ClientNotify? || step.RunClosure? {
      ClientStepsKeepNewestFirst(s, step);
    } else if step.Take? {
      assert forall i :: 0 <= i < |t.queue| ==> t.queue[i] == s.queue[i + 1];
    }
  }

  lemma StepKeepsFreshInv(s: State, step: ServerStep)
    requires ServerInv(s) && FreshInv(s) && CanStep(s, step)
    ensures ServerInv(Do(s, step)) && FreshInv(Do(s, step))
  {
    hide CanStep, Do, UnitsOk, HandsOk, OneHandEach, NoOrphans, NothingForgotten, ReportsOk, TasksOnUnit, PublishedKnown, NewestFirst;
    ServerStepKeepsInv(s, step);
    TasksStayOnUnit(s, step);
    PublishedStaysKnown(s, step);
    NewestStaysFirst(s, step);
  }

  lemma {:induction false} RunKeepsFreshInv(s: State, steps: seq<ServerStep>)
    requires ServerInv(s) && FreshInv(s) && LegalRun(s, steps)
    ensures ServerInv(RunServer(s, steps)) && FreshInv(RunServer(s, steps))
    decreases |steps|
  {
    hide CanStep, Do, ServerInv, FreshInv;
    if steps != [] {
      StepKeepsFreshInv(s, steps[0]);
      RunKeepsFreshInv(Do(s, steps[0]), steps[1..]);
    }
  }

  lemma StartIsFresh(workers: nat)
    ensures FreshInv(Start(workers))
  {
    var s := Start(workers);
    assert forall w :: 0 <= w < |s.workers| ==> s.workers[w] == IdleWorker;
  }

  /** Requests are served last in, first out: the one a worker takes next is the newest that waits
      for its file, whatever the interleaving. */
  lemma NewestWaitingRequestIsTaken(workers: nat, run: seq<ServerStep>, w: nat, i: nat)
    requires LegalRun(Start(workers), run) && CanStep(RunServer(Start(workers), run), Take(w))
    requires i < |RunServer(Start(workers), run).queue| - 1
    ensures var s := RunServer(Start(workers), run);
      var t := Do(s, Take(w));
      && WorkerTask(t.workers[w]).Some? && t.queue == s.queue[1..] && i < |t.queue|
      && var taken := WorkerTask(t.workers[w]).value;
         s.queue == [taken] + t.queue && (t.queue[i].unit == taken.unit ==> taken.request > t.queue[i].request)
  {
    hide ServerInv, TasksOnUnit, PublishedKnown, Start, RunServer, LegalRun, Enabled;
    StartIsFine(workers);
    StartIsFresh(workers);
    RunKeepsFreshInv(Start(workers), run);
    var s := RunServer(Start(workers), run);
    assert s.queue[1..][i] == s.queue[i + 1];
    assert s.queue == [s.queue[0]] + s.queue[1..];
  }
}
