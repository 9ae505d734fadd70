/** What holds in every run of the server, and once it has come to rest. */
module ServerTheorems {
  import opened Options
  import opened CppFiles
  import opened RebuildProtocol
  import opened RebuildSafety
  import opened RebuildProgress
  import opened ServerTables
  import opened ServerProtocol
  import opened ServerProofs

  ghost predicate LegalRun(s: State, steps: seq<ServerStep>)
    decreases |steps|
  {
    steps == [] || (CanStep(s, steps[0]) && LegalRun(Do(s, steps[0]), steps[1..]))
  }

  ghost function RunServer(s: State, steps: seq<ServerStep>): State
    requires LegalRun(s, steps)
    decreases |steps|
  {
    if steps == [] then s else RunServer(Do(s, steps[0]), steps[1..])
  }

  lemma {:induction false} ServerRunKeepsInv(s: State, steps: seq<ServerStep>)
    requires ServerInv(s) && LegalRun(s, steps)
    ensures ServerInv(RunServer(s, steps))
    decreases |steps|
  {
    if steps != [] {
      ServerStepKeepsInv(s, steps[0]);
      ServerRunKeepsInv(Do(s, steps[0]), steps[1..]);
    }
  }

  lemma {:induction false} WorkersStay(s: State, steps: seq<ServerStep>)
    requires LegalRun(s, steps)
    ensures |RunServer(s, steps).workers| == |s.workers|
    decreases |steps|
  {
    if steps != [] {
      WorkersStay(Do(s, steps[0]), steps[1..]);
    }
  }

  lemma StartIsFine(workers: nat)
    ensures ServerInv(Start(workers))
  {
    var s := Start(workers);
    assert forall w :: 0 <= w < |s.workers| ==> s.workers[w] == IdleWorker;
  }

  /** Whatever the interleaving, the versions published for one file never decrease, none is newer
      than the draft, and no CppFile faults or runs two rebuilds at once. */
  lemma PublishedVersionsNeverDecrease(workers: nat, steps: seq<ServerStep>)
    requires LegalRun(Start(workers), steps)
    ensures var s := RunServer(Start(workers), steps);
            && PublishedInOrder(s.published)
            && (forall i :: 0 <= i < |s.published| ==>
                  s.published[i].version <= Version(s.drafts, s.published[i].file))
            && (forall unit :: 0 <= unit < |s.files| ==>
                  !s.files[unit].file.faulted && MutualExclusion(s.files[unit]))
  {
    StartIsFine(workers);
    ServerRunKeepsInv(Start(workers), steps);
  }

  ghost predicate AtRest(s: State) {
    s.client.IdleClient? && s.queue == [] && forall w :: 0 <= w < |s.workers| ==> s.workers[w].IdleWorker?
  }

  /** The version a draft carries is the last one published, for every open document. */
  ghost predicate UpToDate(s: State) {
    forall f :: Open(s.drafts, f) ==> LastPublished(s.published, f) == Version(s.drafts, f)
  }

  /** Every future any CppFile ever handed out is ready. */
  ghost predicate AllFuturesReady(s: State) {
    forall unit | 0 <= unit < |s.files| ::
      && (forall i :: 0 <= i < |s.files[unit].file.preambles| ==> s.files[unit].file.preambles[i].Fulfilled?)
      && (forall i :: 0 <= i < |s.files[unit].file.asts| ==> s.files[unit].file.asts[i].Fulfilled?)
  }

  lemma NewestFinishedMeansReady(p: Protocol)
    requires RebuildProtocol.Inv(p) && p.closures[Newest(p)].phase.Finished?
    ensures forall i :: 0 <= i < |p.file.preambles| ==> p.file.preambles[i].Fulfilled?
    ensures forall i :: 0 <= i < |p.file.asts| ==> p.file.asts[i].Fulfilled?
  {
    assert SetBy(p.file.CurrentPreamble(), Newest(p)) && SetBy(p.file.CurrentAst(), Newest(p));
  }

  lemma RestingStateIsComplete(s: State)
    requires ServerInv(s) && AtRest(s)
    ensures UpToDate(s) && AllFuturesReady(s)
  {
    forall unit | 0 <= unit < |s.files|
      ensures NewestFinished(s, unit)
    {
      if unit in s.units.Values {
        var f :| f in s.units && s.units[f] == unit;
        assert OpenFilePursued(s, f);
      } else {
        assert ClosedUnitPursued(s, unit);
      }
    }
    forall unit | 0 <= unit < |s.files|
      ensures forall i :: 0 <= i < |s.files[unit].file.preambles| ==> s.files[unit].file.preambles[i].Fulfilled?
      ensures forall i :: 0 <= i < |s.files[unit].file.asts| ==> s.files[unit].file.asts[i].Fulfilled?
    {
      assert NewestFinished(s, unit);
      NewestFinishedMeansReady(s.files[unit]);
    }
    forall f | Open(s.drafts, f)
      ensures LastPublished(s.published, f) == Version(s.drafts, f)
    {
      assert OpenFilePursued(s, f);
    }
  }

  /** At quiescence every open document's last published version is its current one, although
      outdated closures were dropped without running, and nobody can block on a future. */
  lemma QuiescentServerIsUpToDate(workers: nat, steps: seq<ServerStep>)
    requires LegalRun(Start(workers), steps) && AtRest(RunServer(Start(workers), steps))
    ensures UpToDate(RunServer(Start(workers), steps))
    ensures AllFuturesReady(RunServer(Start(workers), steps))
  {
    StartIsFine(workers);
    ServerRunKeepsInv(Start(workers), steps);
    RestingStateIsComplete(RunServer(Start(workers), steps));
  }

  // ---------------------------------------------------------------- the server does come to rest

  /** Everything but a new client call and a spurious wakeup. */
  predicate Driving(step: ServerStep) {
    && !step.UpdateDraft? && !step.FetchDraft? && !step.RemoveDraft?
    && (step.RunClosure? ==> !step.step.SpuriousWake?)
  }

  predicate WorkerStep(step: ServerStep) {
    step.Take? || step.CheckVersion? || step.RunClosure? || step.Return? || step.Publish?
  }

  lemma BusyClientCanStep(s: State) returns (step: ServerStep)
    requires ServerInv(s) && !s.client.IdleClient?
    ensures Driving(step) && CanStep(s, step) && !WorkerStep(step)
  {
    step := match s.client
      case Drafted(_, _) => GetOrCreateFile
      case Resourced(_, _, _) => DeferRebuild(Command(0))
      case DraftRemoved(_) => RemoveIfPresent
      case Detached(_) => DeferCancel
      case MustNotify(_) => ClientNotify
      case MustPush(_) => AddToFront;
  }

  /** A worker inside a closure that is not asleep can move on. */
  lemma AwakeWorkerCanStep(s: State, w: nat) returns (step: ServerStep)
    requires ServerInv(s) && w < |s.workers| && !s.workers[w].IdleWorker?
    requires s.workers[w].Running? ==> WorkerOk(s, s.workers[w]) && !PhaseOf(s, s.workers[w].task).Asleep?
    ensures Driving(step) && CanStep(s, step) && WorkerStep(step) && step.w == w
  {
    assert WorkerOk(s, s.workers[w]);
    if s.workers[w].Checking? {
      step := CheckVersion(w);
    } else if s.workers[w].Publishing? {
      step := Publish(w);
    } else {
      var task := s.workers[w].task;
      assert RebuildProtocol.Inv(s.files[task.unit]);
      if PhaseOf(s, task).Finished? {
        step := Return(w);
      } else {
        step := RunClosure(w, NextStep(task.request, PhaseOf(s, task)));
      }
    }
  }

  /** The closure that a sleeper waits for, or that owes it a wakeup, is in awake hands. */
  lemma SleeperHasAHelper(s: State, w: nat) returns (step: ServerStep)
    requires ServerInv(s) && w < |s.workers| && s.client.IdleClient? && s.workers[w].Running?
    requires WorkerOk(s, s.workers[w]) && PhaseOf(s, s.workers[w].task).Asleep?
    ensures Driving(step) && CanStep(s, step)
    ensures WorkerStep(step) && step.w < |s.workers| && s.workers[step.w].Running?
  {
    var task := s.workers[w].task;
    var p := s.files[task.unit];
    assert RebuildProtocol.Inv(p);
    var k: nat;
    if SomeoneOwesNotify(p) {
      k :| 0 <= k < |p.closures| && p.closures[k].phase.OwesNotify();
    } else {
      assert Judge(p.file, task.request) == Blocked;
      k :| 0 <= k < |p.closures| && p.closures[k].phase.InGuard();
    }
    assert InHand(s, task.unit, k);
    var v :| 0 <= v < |s.workers| && s.workers[v].Running? &&
             s.workers[v].task.unit == task.unit && s.workers[v].task.request == k;
    assert WorkerOk(s, s.workers[v]);
    step := AwakeWorkerCanStep(s, v);
  }

  /** With at least one worker the server never gets stuck before it is at rest. */
  lemma ServerNeverStuck(s: State) returns (step: ServerStep)
    requires ServerInv(s) && |s.workers| > 0 && !AtRest(s)
    ensures Driving(step) && CanStep(s, step)
  {
    if !s.client.IdleClient? {
      step := BusyClientCanStep(s);
    } else if w :| 0 <= w < |s.workers| && !s.workers[w].IdleWorker? {
      assert WorkerOk(s, s.workers[w]);
      if s.workers[w].Running? && PhaseOf(s, s.workers[w].task).Asleep? {
        step := SleeperHasAHelper(s, w);
      } else {
        step := AwakeWorkerCanStep(s, w);
      }
    } else {
      step := Take(0);
    }
  }

  /** A server with a worker that can do nothing more without a new client call is up to date. */
  lemma StuckServerIsUpToDate(workers: nat, steps: seq<ServerStep>)
    requires workers > 0 && LegalRun(Start(workers), steps)
    requires forall step | Driving(step) :: !CanStep(RunServer(Start(workers), steps), step)
    ensures AtRest(RunServer(Start(workers), steps))
    ensures UpToDate(RunServer(Start(workers), steps))
    ensures AllFuturesReady(RunServer(Start(workers), steps))
  {
    StartIsFine(workers);
    ServerRunKeepsInv(Start(workers), steps);
    WorkersStay(Start(workers), steps);
    if !AtRest(RunServer(Start(workers), steps)) {
      var step := ServerNeverStuck(RunServer(Start(workers), steps));
    }
    RestingStateIsComplete(RunServer(Start(workers), steps));
  }

  function WorkerWeight(w: Worker): nat {
    match w
    case IdleWorker => 0
    case Publishing(_) => 1
    case Running(_) => 2
    case Checking(_) => 3
  }

  function WorkersWeight(ws: seq<Worker>): nat {
    if ws == [] then 0 else WorkersWeight(ws[..|ws| - 1]) + WorkerWeight(ws[|ws| - 1])
  }

  function FilesRank(ps: seq<Protocol>): nat {
    if ps == [] then 0 else FilesRank(ps[..|ps| - 1]) + Rank(ps[|ps| - 1])
  }

  function Workload(s: State): nat {
    FilesRank(s.files) + 4 * |s.queue| + WorkersWeight(s.workers)
  }

  lemma {:induction false} WorkersWeightOfUpdate(ws: seq<Worker>, w: nat, worker: Worker)
    requires w < |ws|
    ensures WorkersWeight(ws[w := worker]) == WorkersWeight(ws) - WorkerWeight(ws[w]) + WorkerWeight(worker)
  {
    var n := |ws| - 1;
    if w == n {
      assert ws[w := worker][..n] == ws[..n];
    } else {
      WorkersWeightOfUpdate(ws[..n], w, worker);
      assert ws[w := worker][..n] == ws[..n][w := worker];
    }
  }

  lemma {:induction false} FilesRankOfUpdate(ps: seq<Protocol>, u: nat, p: Protocol)
    requires u < |ps|
    ensures FilesRank(ps[u := p]) == FilesRank(ps) - Rank(ps[u]) + Rank(p)
  {
    var n := |ps| - 1;
    if u == n {
      assert ps[u := p][..n] == ps[..n];
    } else {
      FilesRankOfUpdate(ps[..n], u, p);
      assert ps[u := p][..n] == ps[..n][u := p];
    }
  }

  lemma WorkerStepsLowerTheWorkload(s: State, step: ServerStep)
    requires CanStep(s, step) && WorkerStep(step) && Driving(step)
    ensures Workload(Do(s, step)) < Workload(s)
  {
    var t := Do(s, step);
    if step.RunClosure? {
      var unit := s.workers[step.w].task.unit;
      ProductiveStepsLowerTheRank(s.files[unit], step.step);
      FilesRankOfUpdate(s.files, unit, t.files[unit]);
    } else {
      assert t.files == s.files && t.workers == s.workers[step.w := t.workers[step.w]];
      WorkersWeightOfUpdate(s.workers, step.w, t.workers[step.w]);
    }
  }

  /** Once the client pauses, the workers empty the queue in a bounded number of steps, whatever
      order they are scheduled in (spurious wakeups not counted). */
  lemma {:induction false} WorkersDrain(s: State, steps: seq<ServerStep>)
    requires ServerInv(s) && LegalRun(s, steps)
    requires forall i :: 0 <= i < |steps| ==> WorkerStep(steps[i]) && Driving(steps[i])
    ensures |steps| <= Workload(s)
    decreases |steps|
  {
    hide CanStep, Driving, Do, ServerInv, Workload;
    if steps != [] {
      ServerStepKeepsInv(s, steps[0]);
      WorkerStepsLowerTheWorkload(s, steps[0]);
      WorkersDrain(Do(s, steps[0]), steps[1..]);
    }
  }
}
