/** What is published: in every run, each publication is traced back to the request it answers, to
    the check that its version was current, and to the builds its diagnostics come from. */
module ServerPublications {
  import opened Options
  import opened CppFiles
  import opened RebuildProtocol
  import opened RebuildSafety
  import opened RebuildResults
  import opened ServerTables
  import opened ServerProtocol
  import opened ServerProofs
  import opened ServerTheorems

  // ---------------------------------------------------------------- a run and its prefixes

  lemma {:induction false} LegalPrefix(s: State, steps: seq<ServerStep>, i: nat)
    requires LegalRun(s, steps) && i <= |steps|
    ensures LegalRun(s, steps[..i])
    decreases i
  {
    if i > 0 {
      LegalPrefix(Do(s, steps[0]), steps[1..], i - 1);
      assert steps[..i][1..] == steps[1..][..i - 1];
    }
  }

  /** The state after the first i steps of a run. */
  ghost function At(workers: nat, run: seq<ServerStep>, i: nat): State
    requires LegalRun(Start(workers), run) && i <= |run|
  {
    LegalPrefix(Start(workers), run, i);
    RunServer(Start(workers), run[..i])
  }

  /** The CppFile a step of the server works on, and what it does there. */
  function FileStep(s: State, step: ServerStep): Option<(nat, Step)>
    requires CanStep(s, step)
  {
    match step
    case DeferRebuild(command) => Some((s.client.unit, RequestRebuild(command)))
    case DeferCancel => Some((s.client.unit, RequestCancel))
    case ClientNotify => Some((s.client.task.unit, NotifyRequest(s.client.task.request)))
    case RunClosure(w, fileStep) => Some((s.workers[w].task.unit, fileStep))
    case _ => None
  }

  function Share(s: State, step: ServerStep, unit: nat): seq<Step>
    requires CanStep(s, step)
  {
    match FileStep(s, step)
    case Some((u, fileStep)) => if u == unit then [fileStep] else []
    case None => []
  }

  /** The steps of a run that worked on one CppFile. */
  ghost function StepsOf(s: State, steps: seq<ServerStep>, unit: nat): seq<Step>
    requires LegalRun(s, steps)
    decreases |steps|
  {
    if steps == [] then [] else Share(s, steps[0], unit) + StepsOf(Do(s, steps[0]), steps[1..], unit)
  }

  lemma {:induction false} Longer(s: State, steps: seq<ServerStep>, step: ServerStep)
    requires LegalRun(s, steps) && CanStep(RunServer(s, steps), step)
    ensures LegalRun(s, steps + [step])
    ensures RunServer(s, steps + [step]) == Do(RunServer(s, steps), step)
    ensures forall unit :: StepsOf(s, steps + [step], unit) == StepsOf(s, steps, unit) + Share(RunServer(s, steps), step, unit)
    decreases |steps|
  {
    hide CanStep, Do, FileStep, Share;
    var longer := steps + [step];
    if steps == [] {
      assert longer[1..] == [] && longer[0] == step;
      assert LegalRun(Do(s, step), []);
    } else {
      Longer(Do(s, steps[0]), steps[1..], step);
      assert longer[1..] == steps[1..] + [step] && longer[0] == steps[0];
      forall unit
        ensures StepsOf(s, longer, unit) == StepsOf(s, steps, unit) + Share(RunServer(s, steps), step, unit)
      {
        var next := Do(s, steps[0]);
        assert StepsOf(next, longer[1..], unit) == StepsOf(next, steps[1..], unit) + Share(RunServer(s, steps), step, unit);
      }
    }
  }

  // ---------------------------------------------------------------- the origin of a publication

  /** Request `request` of the CppFile `unit` was made to rebuild version `version` of `file`. */
  ghost predicate RequestedFor(workers: nat, run: seq<ServerStep>, file: File, version: nat, unit: nat, request: nat)
    requires LegalRun(Start(workers), run)
  {
    exists i :: 0 <= i < |run| && run[i].DeferRebuild? &&
      var s := At(workers, run, i);
      && s.client == Resourced(file, version, unit)
      && unit < |s.files| && request == s.files[unit].file.rebuildCounter + 1
  }

  /** A worker found the version current and went on to run the closure of that request. */
  ghost predicate FoundCurrent(workers: nat, run: seq<ServerStep>, file: File, version: nat, unit: nat, request: nat)
    requires LegalRun(Start(workers), run)
  {
    exists i :: 0 <= i < |run| && run[i].CheckVersion? &&
      var s := At(workers, run, i);
      && run[i].w < |s.workers| && s.workers[run[i].w] == Checking(ReparseTask(file, version, unit, request))
      && file in s.drafts && s.drafts[file].version == version
  }

  ghost predicate Founded(workers: nat, run: seq<ServerStep>, p: Publication)
    requires LegalRun(Start(workers), run)
  {
    && RequestedFor(workers, run, p.file, p.version, p.unit, p.request)
    && FoundCurrent(workers, run, p.file, p.version, p.unit, p.request)
    && DiagnosticsOf(StepsOf(Start(workers), run, p.unit), p.request, p.diags)
  }

  lemma AtLonger(workers: nat, run: seq<ServerStep>, step: ServerStep, i: nat)
    requires LegalRun(Start(workers), run) && LegalRun(Start(workers), run + [step]) && i <= |run|
    ensures At(workers, run + [step], i) == At(workers, run, i)
  {
    assert (run + [step])[..i] == run[..i];
  }

  lemma OriginRemains(workers: nat, run: seq<ServerStep>, step: ServerStep, f: File, v: nat, u: nat, k: nat)
    requires LegalRun(Start(workers), run) && LegalRun(Start(workers), run + [step])
    ensures RequestedFor(workers, run, f, v, u, k) ==> RequestedFor(workers, run + [step], f, v, u, k)
    ensures FoundCurrent(workers, run, f, v, u, k) ==> FoundCurrent(workers, run + [step], f, v, u, k)
  {
    hide At;
    var longer := run + [step];
    if RequestedFor(workers, run, f, v, u, k) {
      var i :| 0 <= i < |run| && run[i].DeferRebuild? &&
        var s := At(workers, run, i);
        && s.client == Resourced(f, v, u)
        && u < |s.files| && k == s.files[u].file.rebuildCounter + 1;
      AtLonger(workers, run, step, i);
      assert longer[i] == run[i];
    }
    if FoundCurrent(workers, run, f, v, u, k) {
      var i :| 0 <= i < |run| && run[i].CheckVersion? &&
        var s := At(workers, run, i);
        && run[i].w < |s.workers| && s.workers[run[i].w] == Checking(ReparseTask(f, v, u, k))
        && f in s.drafts && s.drafts[f].version == v;
      AtLonger(workers, run, step, i);
      assert longer[i] == run[i];
    }
  }

  lemma {:induction false} DiagnosticsRemainAfter(steps: seq<Step>, more: seq<Step>, k: nat, diags: seq<nat>)
    requires DiagnosticsOf(steps, k, diags) && |more| <= 1
    ensures DiagnosticsOf(steps + more, k, diags)
  {
    if more == [] {
      assert steps + more == steps;
    } else {
      assert more == [more[0]];
      DiagnosticsRemain(steps, more[0], k, diags);
    }
  }

  lemma FoundedRemains(workers: nat, run: seq<ServerStep>, step: ServerStep, p: Publication)
    requires LegalRun(Start(workers), run) && CanStep(RunServer(Start(workers), run), step)
    requires LegalRun(Start(workers), run + [step]) && Founded(workers, run, p)
    ensures Founded(workers, run + [step], p)
  {
    hide CanStep, DiagnosticsOf, RequestedFor, FoundCurrent, RunServer, StepsOf;
    Longer(Start(workers), run, step);
    OriginRemains(workers, run, step, p.file, p.version, p.unit, p.request);
    DiagnosticsRemainAfter(StepsOf(Start(workers), run, p.unit),
                           Share(RunServer(Start(workers), run), step, p.unit), p.request, p.diags);
  }

  // ---------------------------------------------------------------- the history of a server state

  /** Every CppFile is where its own steps have brought it. */
  ghost predicate FilesReplay(workers: nat, run: seq<ServerStep>)
    requires LegalRun(Start(workers), run)
  {
    var s := RunServer(Start(workers), run);
    && (forall u :: 0 <= u < |s.files| ==>
          Legal(Initial, StepsOf(Start(workers), run, u)) && s.files[u] == Run(Initial, StepsOf(Start(workers), run, u)))
    && (forall u :: u >= |s.files| ==> StepsOf(Start(workers), run, u) == [])
  }

  ghost predicate TasksRequested(workers: nat, run: seq<ServerStep>)
    requires LegalRun(Start(workers), run)
  {
    forall t :: Held(RunServer(Start(workers), run), t) && t.ReparseTask? ==>
      RequestedFor(workers, run, t.file, t.version, t.unit, t.request)
  }

  ghost predicate RunnersChecked(workers: nat, run: seq<ServerStep>)
    requires LegalRun(Start(workers), run)
  {
    var s := RunServer(Start(workers), run);
    forall w :: 0 <= w < |s.workers| && s.workers[w].Running? && s.workers[w].task.ReparseTask? ==>
      var t := s.workers[w].task;
      FoundCurrent(workers, run, t.file, t.version, t.unit, t.request)
  }

  ghost predicate AllFounded(workers: nat, run: seq<ServerStep>)
    requires LegalRun(Start(workers), run)
  {
    var s := RunServer(Start(workers), run);
    && (forall w :: 0 <= w < |s.workers| && s.workers[w].Publishing? ==> Founded(workers, run, s.workers[w].publication))
    && (forall i :: 0 <= i < |s.published| ==> Founded(workers, run, s.published[i]))
  }

  lemma {:induction false} ReplayOneMore(p: Protocol, steps: seq<Step>, more: seq<Step>)
    requires Legal(p, steps) && |more| <= 1
    requires more != [] ==> Run(p, steps).file.Shaped() && Enabled(Run(p, steps), more[0])
    ensures Legal(p, steps + more)
    ensures Run(p, steps + more) == if more == [] then Run(p, steps) else Apply(Run(p, steps), more[0])
    decreases |steps|
  {
    hide Apply, Enabled;
    if more == [] {
      assert steps + more == steps;
    } else if steps == [] {
      assert steps + more == more && Run(p, steps) == p;
      LastStep(p, more, Apply(p, more[0]));
    } else {
      ReplayOneMore(Apply(p, steps[0]), steps[1..], more);
      assert (steps + more)[1..] == steps[1..] + more && (steps + more)[0] == steps[0];
    }
  }

  /** A server step changes no CppFile but the one it works on, and that by its one step. */
  lemma FileStepIsAll(s: State, step: ServerStep)
    requires CanStep(s, step)
    ensures |s.files| <= |Do(s, step).files| && (!step.GetOrCreateFile? ==> |Do(s, step).files| == |s.files|)
    ensures FileStep(s, step).Some? ==> FileStep(s, step).value.0 < |s.files|
    ensures forall u :: 0 <= u < |s.files| ==>
      var share := Share(s, step, u);
      && |share| <= 1
      && (share == [] ==> Do(s, step).files[u] == s.files[u])
      && (share != [] ==> s.files[u].file.Shaped() && Enabled(s.files[u], share[0])
                          && Do(s, step).files[u] == Apply(s.files[u], share[0]))
    ensures forall u :: |s.files| <= u < |Do(s, step).files| ==> Do(s, step).files[u] == Initial
  {
    hide Apply;
  }

  lemma ReplayKept(workers: nat, run: seq<ServerStep>, step: ServerStep)
    requires LegalRun(Start(workers), run) && CanStep(RunServer(Start(workers), run), step)
    requires FilesReplay(workers, run) && LegalRun(Start(workers), run + [step])
    ensures FilesReplay(workers, run + [step])
  {
    hide CanStep, Do, FileStep, Share, Enabled, Apply, RunServer, StepsOf, LegalRun;
    var s, longer := RunServer(Start(workers), run), run + [step];
    Longer(Start(workers), run, step);
    FileStepIsAll(s, step);
    var t := RunServer(Start(workers), longer);
    forall u | 0 <= u < |t.files|
      ensures Legal(Initial, StepsOf(Start(workers), longer, u))
      ensures t.files[u] == Run(Initial, StepsOf(Start(workers), longer, u))
    {
      var steps, share := StepsOf(Start(workers), run, u), Share(s, step, u);
      assert StepsOf(Start(workers), longer, u) == steps + share;
      if u < |s.files| {
        ReplayOneMore(Initial, steps, share);
      } else {
        NoShare(s, step, u);
      }
    }
    forall u | u >= |t.files|
      ensures StepsOf(Start(workers), longer, u) == []
    {
      NoShare(s, step, u);
      assert StepsOf(Start(workers), longer, u) == StepsOf(Start(workers), run, u) + Share(s, step, u);
    }
  }

  lemma NoShare(s: State, step: ServerStep, u: nat)
    requires CanStep(s, step) && u >= |s.files|
    ensures Share(s, step, u) == []
  {
    hide Enabled, Apply;
  }

  /** A task is held after a step if it was before, or if the step has just made its request. */
  lemma HeldBefore(s: State, step: ServerStep, t: Task)
    requires CanStep(s, step) && Held(Do(s, step), t) && t.ReparseTask?
    ensures Held(s, t) ||
      (step.DeferRebuild? && s.client == Resourced(t.file, t.version, t.unit)
       && t.unit < |s.files| && t.request == s.files[t.unit].file.rebuildCounter + 1)
  {
    hide Enabled;
    var after := Do(s, step);
    if ClientTask(after.client) == Some(t) {
    } else if t in after.queue {
      assert t in s.queue || (step.AddToFront? && s.client.task == t);
    } else {
      var w :| 0 <= w < |after.workers| && WorkerTask(after.workers[w]) == Some(t);
      if after.workers[w] == s.workers[w] {
        assert WorkerTask(s.workers[w]) == Some(t);
      } else if step.Take? {
        assert s.queue[0] in s.queue;
      } else {
        assert WorkerTask(s.workers[w]) == Some(t);
      }
    }
  }

  lemma TasksRequestedKept(workers: nat, run: seq<ServerStep>, step: ServerStep)
    requires LegalRun(Start(workers), run) && CanStep(RunServer(Start(workers), run), step)
    requires TasksRequested(workers, run) && LegalRun(Start(workers), run + [step])
    ensures TasksRequested(workers, run + [step])
  {
    hide CanStep, Do, Held, RunServer, StepsOf, LegalRun;
    var s, longer := RunServer(Start(workers), run), run + [step];
    Longer(Start(workers), run, step);
    forall t | Held(Do(s, step), t) && t.ReparseTask?
      ensures RequestedFor(workers, longer, t.file, t.version, t.unit, t.request)
    {
      HeldBefore(s, step, t);
      if Held(s, t) {
        OriginRemains(workers, run, step, t.file, t.version, t.unit, t.request);
      } else {
        LastIsAt(workers, run, step);
        assert longer[|run|] == step;
      }
    }
  }

  lemma LastIsAt(workers: nat, run: seq<ServerStep>, step: ServerStep)
    requires LegalRun(Start(workers), run) && LegalRun(Start(workers), run + [step])
    ensures At(workers, run + [step], |run|) == RunServer(Start(workers), run)
  {
    assert (run + [step])[..|run|] == run;
  }

  /** A worker is running what it ran before, or what it has just found current. */
  lemma RunningBefore(s: State, step: ServerStep, w: nat)
    requires CanStep(s, step) && w < |Do(s, step).workers| && Do(s, step).workers[w].Running?
    requires Do(s, step).workers[w].task.ReparseTask?
    ensures w < |s.workers|
    ensures s.workers[w] == Do(s, step).workers[w] ||
      var t := Do(s, step).workers[w].task;
      (step == CheckVersion(w) && s.workers[w] == Checking(t) && Version(s.drafts, t.file) == t.version)
  {
    hide Enabled;
  }

  lemma RunnersCheckedKept(workers: nat, run: seq<ServerStep>, step: ServerStep)
    requires LegalRun(Start(workers), run) && CanStep(RunServer(Start(workers), run), step)
    requires RunnersChecked(workers, run) && LegalRun(Start(workers), run + [step])
    requires DraftsExist(RunServer(Start(workers), run))
    ensures RunnersChecked(workers, run + [step])
  {
    hide CanStep, Do, RunServer, StepsOf, LegalRun;
    var s, longer := RunServer(Start(workers), run), run + [step];
    Longer(Start(workers), run, step);
    var t := Do(s, step);
    forall w | 0 <= w < |t.workers| && t.workers[w].Running? && t.workers[w].task.ReparseTask?
      ensures var task := t.workers[w].task;
              FoundCurrent(workers, longer, task.file, task.version, task.unit, task.request)
    {
      RunningBefore(s, step, w);
      var task := t.workers[w].task;
      if s.workers[w] == t.workers[w] {
        OriginRemains(workers, run, step, task.file, task.version, task.unit, task.request);
      } else {
        LastIsAt(workers, run, step);
        assert longer[|run|] == step;
      }
    }
  }

  /** The file of a request has a draft. */
  ghost predicate DraftsExist(s: State) {
    && (s.client.Drafted? || s.client.Resourced? ==> s.client.file in s.drafts)
    && forall t :: Held(s, t) && t.ReparseTask? ==> t.file in s.drafts
  }

  lemma DraftsExistKept(s: State, step: ServerStep)
    requires CanStep(s, step) && DraftsExist(s)
    ensures DraftsExist(Do(s, step))
  {
    hide Enabled, Held;
    forall t | Held(Do(s, step), t) && t.ReparseTask?
      ensures t.file in Do(s, step).drafts
    {
      HeldBefore(s, step, t);
    }
  }

  /** What a worker is about to publish it was about to publish before, or its closure returned it. */
  lemma PublishingBefore(s: State, step: ServerStep, w: nat)
    requires CanStep(s, step) && w < |Do(s, step).workers| && Do(s, step).workers[w].Publishing?
    ensures w < |s.workers|
    ensures s.workers[w] == Do(s, step).workers[w] ||
      var p := Do(s, step).workers[w].publication;
      (step == Return(w) && s.workers[w] == Running(ReparseTask(p.file, p.version, p.unit, p.request))
       && p.unit < |s.files| && p.request < |s.files[p.unit].closures|
       && s.files[p.unit].closures[p.request].phase == Finished(Diagnostics(p.diags)))
  {
    hide Enabled;
  }

  lemma ReturnedIsFounded(workers: nat, run: seq<ServerStep>, w: nat, p: Publication)
    requires LegalRun(Start(workers), run) && TasksRequested(workers, run) && RunnersChecked(workers, run)
    requires FilesReplay(workers, run)
    requires var s := RunServer(Start(workers), run);
      && w < |s.workers| && s.workers[w] == Running(ReparseTask(p.file, p.version, p.unit, p.request))
      && p.unit < |s.files| && p.request < |s.files[p.unit].closures|
      && s.files[p.unit].closures[p.request].phase == Finished(Diagnostics(p.diags))
    ensures Founded(workers, run, p)
  {
    hide RequestedFor, FoundCurrent, DiagnosticsOf, RunServer, StepsOf, LegalRun;
    var s := RunServer(Start(workers), run);
    var task := ReparseTask(p.file, p.version, p.unit, p.request);
    assert WorkerTask(s.workers[w]) == Some(task);
    assert Held(s, task);
    ResultsAreWhatWasBuilt(StepsOf(Start(workers), run, p.unit), p.request);
  }

  lemma AllFoundedKept(workers: nat, run: seq<ServerStep>, step: ServerStep)
    requires LegalRun(Start(workers), run) && CanStep(RunServer(Start(workers), run), step)
    requires TasksRequested(workers, run) && RunnersChecked(workers, run) && FilesReplay(workers, run)
    requires AllFounded(workers, run) && LegalRun(Start(workers), run + [step])
    ensures AllFounded(workers, run + [step])
  {
    hide CanStep, Do, RunServer, StepsOf, LegalRun, Founded, TasksRequested, RunnersChecked, FilesReplay;
    var s, longer := RunServer(Start(workers), run), run + [step];
    Longer(Start(workers), run, step);
    var t := Do(s, step);
    forall w | 0 <= w < |t.workers| && t.workers[w].Publishing?
      ensures Founded(workers, longer, t.workers[w].publication)
    {
      PublishingBefore(s, step, w);
      if s.workers[w] != t.workers[w] {
        ReturnedIsFounded(workers, run, w, t.workers[w].publication);
      }
      FoundedRemains(workers, run, step, t.workers[w].publication);
    }
    forall i | 0 <= i < |t.published|
      ensures Founded(workers, longer, t.published[i])
    {
      PublishedBefore(s, step, i);
      FoundedRemains(workers, run, step, t.published[i]);
    }
  }

  lemma PublishedBefore(s: State, step: ServerStep, i: nat)
    requires CanStep(s, step) && i < |Do(s, step).published|
    ensures if i < |s.published| then Do(s, step).published[i] == s.published[i]
            else step.Publish? && step.w < |s.workers| && s.workers[step.w] == Publishing(Do(s, step).published[i])
  {
    hide Enabled;
  }

  ghost predicate HistoryKnown(workers: nat, run: seq<ServerStep>)
    requires LegalRun(Start(workers), run)
  {
    && FilesReplay(workers, run) && TasksRequested(workers, run) && RunnersChecked(workers, run)
    && DraftsExist(RunServer(Start(workers), run)) && AllFounded(workers, run)
  }

  lemma NothingKnownAtStart(workers: nat)
    ensures LegalRun(Start(workers), []) && HistoryKnown(workers, [])
  {
    var s := Start(workers);
    assert LegalRun(s, []) && RunServer(s, []) == s;
    assert forall w :: 0 <= w < |s.workers| ==> s.workers[w] == IdleWorker;
  }

  lemma {:induction false} LegalLast(s: State, steps: seq<ServerStep>)
    requires LegalRun(s, steps) && steps != []
    ensures LegalRun(s, steps[..|steps| - 1]) && CanStep(RunServer(s, steps[..|steps| - 1]), steps[|steps| - 1])
    decreases |steps|
  {
    hide CanStep, Do;
    var before := steps[..|steps| - 1];
    if |steps| == 1 {
      assert before == [];
    } else {
      LegalLast(Do(s, steps[0]), steps[1..]);
      assert before[1..] == steps[1..][..|steps| - 2] && before[0] == steps[0];
    }
  }

  lemma {:induction false} EveryHistoryIsKnown(workers: nat, run: seq<ServerStep>)
    requires LegalRun(Start(workers), run)
    ensures HistoryKnown(workers, run)
    decreases |run|
  {
    hide RunServer, LegalRun, CanStep, Do, StepsOf, FilesReplay, TasksRequested, RunnersChecked, DraftsExist, AllFounded, Start;
    if run == [] {
      NothingKnownAtStart(workers);
    } else {
      LegalLast(Start(workers), run);
      var before, step := run[..|run| - 1], run[|run| - 1];
      assert before + [step] == run;
      EveryHistoryIsKnown(workers, before);
      Longer(Start(workers), before, step);
      ReplayKept(workers, before, step);
      TasksRequestedKept(workers, before, step);
      RunnersCheckedKept(workers, before, step);
      DraftsExistKept(RunServer(Start(workers), before), step);
      AllFoundedKept(workers, before, step);
    }
  }

  // ---------------------------------------------------------------- what is published

  /** In every run, a publication of version v of f answers a request that f's CppFile got for v,
      found v current before its closure was started, and carries the diagnostics of that request's
      preamble build followed by those of its AST build, or none if no AST could be built. */
  lemma PublicationsAreFounded(workers: nat, run: seq<ServerStep>, i: nat)
    requires LegalRun(Start(workers), run) && i < |RunServer(Start(workers), run).published|
    ensures var p := RunServer(Start(workers), run).published[i];
      && RequestedFor(workers, run, p.file, p.version, p.unit, p.request)
      && FoundCurrent(workers, run, p.file, p.version, p.unit, p.request)
      && DiagnosticsOf(StepsOf(Start(workers), run, p.unit), p.request, p.diags)
  {
    hide RunServer, LegalRun, StepsOf, FilesReplay, TasksRequested, RunnersChecked, DraftsExist;
    EveryHistoryIsKnown(workers, run);
  }

  /** The CppFiles of the server run the protocol of RebuildProtocol and nothing else, so that
      everything proved of its runs holds of every CppFile of every server run. */
  lemma EveryFileRunsTheProtocol(workers: nat, run: seq<ServerStep>, unit: nat)
    requires LegalRun(Start(workers), run) && unit < |RunServer(Start(workers), run).files|
    ensures Legal(Initial, StepsOf(Start(workers), run, unit))
    ensures RunServer(Start(workers), run).files[unit] == Run(Initial, StepsOf(Start(workers), run, unit))
  {
    hide RunServer, LegalRun, StepsOf, AllFounded, TasksRequested, RunnersChecked, DraftsExist;
    EveryHistoryIsKnown(workers, run);
  }

  /** A closure is never started for a version that was not current when a worker looked. */
  lemma StartedClosuresWereCurrent(workers: nat, run: seq<ServerStep>, w: nat)
    requires LegalRun(Start(workers), run)
    requires var s := RunServer(Start(workers), run);
      w < |s.workers| && s.workers[w].Running? && s.workers[w].task.ReparseTask?
    ensures var t := RunServer(Start(workers), run).workers[w].task;
      FoundCurrent(workers, run, t.file, t.version, t.unit, t.request)
  {
    hide RunServer, LegalRun, StepsOf, FilesReplay, TasksRequested, AllFounded, DraftsExist;
    EveryHistoryIsKnown(workers, run);
  }
}
