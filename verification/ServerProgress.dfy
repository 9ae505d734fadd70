/** Left to itself, with a client call in progress or not, the server comes to rest in a bounded number of steps. */
module ServerProgress {
  import opened Options
  import opened CppFiles
  import opened RebuildProtocol
  import opened RebuildSafety
  import opened RebuildProgress
  import opened ServerTables
  import opened ServerProtocol
  import opened ServerProofs
  import opened ServerTheorems

  /** What one more request to a file with n closures may add to the workload, and the client's steps after it. */
  function RequestCredit(n: nat): nat { 14 * n + 21 }

  function UnitCredit(s: State, unit: nat): nat {
    if unit < |s.files| then RequestCredit(|s.files[unit].closures|) else 0
  }

  /** What the client call in progress may still add to the workload. */
  function ClientCredit(s: State): nat {
    match s.client
    case IdleClient => 0
    case MustPush(_) => 5
    case MustNotify(_) => 6
    case Resourced(_, _, unit) => UnitCredit(s, unit)
    case Detached(unit) => UnitCredit(s, unit)
    case Drafted(file, _) => 1 + if file in s.units then UnitCredit(s, s.units[file]) else RequestCredit(1)
    case DraftRemoved(file) => 1 + if file in s.units then UnitCredit(s, s.units[file]) else 0
  }

  function Potential(s: State): nat { Workload(s) + ClientCredit(s) }

  lemma OneMoreClosure(w: nat, n: nat)
    ensures (w + 7) * (n + 2) == w * (n + 1) + w + 7 * n + 14
  {
  }

  lemma RequestAddsWork(p: Protocol, q: Protocol, c: Closure)
    requires q.closures == p.closures + [c] && c.phase.Notifying?
    ensures Rank(q) <= Rank(p) + 14 * |p.closures| + 14
  {
    assert q.closures[..|p.closures|] == p.closures;
    var w, n := TotalWeight(p.closures), |p.closures|;
    AwakeBound(p.closures);
    assert TotalWeight(q.closures) == w + 7 && AwakeCount(q.closures) == AwakeCount(p.closures);
    hide TotalWeight, AwakeCount;
    OneMoreClosure(w, n);
  }

  lemma RequestStep(s: State, step: ServerStep)
    requires CanStep(s, step) && (step.DeferRebuild? || step.DeferCancel?)
    ensures Potential(Do(s, step)) < Potential(s)
  {
    var unit := s.client.unit;
    var t := Do(s, step);
    var p, q := s.files[unit], t.files[unit];
    RequestAddsWork(p, q, q.closures[|p.closures|]);
    FilesRankOfUpdate(s.files, unit, q);
  }

  lemma NotifyStep(s: State)
    requires CanStep(s, ClientNotify)
    ensures Potential(Do(s, ClientNotify)) < Potential(s)
  {
    var task := s.client.task;
    var step := NotifyRequest(task.request);
    ProductiveStepsLowerTheRank(s.files[task.unit], step);
    FilesRankOfUpdate(s.files, task.unit, Apply(s.files[task.unit], step));
  }

  lemma CollectionStep(s: State, step: ServerStep)
    requires CanStep(s, step) && (step.GetOrCreateFile? || step.RemoveIfPresent? || step.AddToFront?)
    ensures Potential(Do(s, step)) < Potential(s)
  {
    var t := Do(s, step);
    if t.files != s.files {
      assert t.files[..|s.files|] == s.files;
      assert Rank(Initial) == 0;
    }
  }

  lemma WorkerStepKeepsCredit(s: State, step: ServerStep)
    requires CanStep(s, step) && WorkerStep(step) && Driving(step)
    ensures ClientCredit(Do(s, step)) == ClientCredit(s)
  {
    if step.RunClosure? {
      ProductiveStepsLowerTheRank(s.files[s.workers[step.w].task.unit], step.step);
    }
  }

  /** Every step but a new client call and a spurious wakeup lowers the potential. */
  lemma DrivingStepsLowerThePotential(s: State, step: ServerStep)
    requires CanStep(s, step) && Driving(step)
    ensures Potential(Do(s, step)) < Potential(s)
  {
    if WorkerStep(step) {
      WorkerStepsLowerTheWorkload(s, step);
      WorkerStepKeepsCredit(s, step);
    } else if step.DeferRebuild? || step.DeferCancel? {
      RequestStep(s, step);
    } else if step.ClientNotify? {
      NotifyStep(s);
    } else {
      CollectionStep(s, step);
    }
  }

  ghost predicate DrivingRun(s: State, steps: seq<ServerStep>) {
    LegalRun(s, steps) && forall i :: 0 <= i < |steps| ==> Driving(steps[i])
  }

  /** No schedule of client and workers runs forever. */
  lemma {:induction false} DrivingRunsEnd(s: State, steps: seq<ServerStep>)
    requires DrivingRun(s, steps)
    ensures |steps| <= Potential(s)
    decreases |steps|
  {
    hide CanStep, Driving, Potential, Do;
    if steps != [] {
      DrivingStepsLowerThePotential(s, steps[0]);
      DrivingRunsEnd(Do(s, steps[0]), steps[1..]);
    }
  }

  /** After any history, every run that goes on until only a new client call could continue it is bounded, and ends at rest,
      up to date and with every future ready. */
  lemma MaximalRunsEndUpToDate(workers: nat, history: seq<ServerStep>, steps: seq<ServerStep>)
    requires workers > 0 && LegalRun(Start(workers), history)
    requires var s := RunServer(Start(workers), history);
      DrivingRun(s, steps) && forall step | Driving(step) :: !CanStep(RunServer(s, steps), step)
    ensures var s := RunServer(Start(workers), history);
      && |steps| <= Potential(s)
      && AtRest(RunServer(s, steps)) && UpToDate(RunServer(s, steps)) && AllFuturesReady(RunServer(s, steps))
  {
    hide CanStep, Driving, Potential, AtRest, UpToDate, AllFuturesReady, ServerInv;
    var s := RunServer(Start(workers), history);
    DrivingRunsEnd(s, steps);
    StartIsFine(workers);
    ServerRunKeepsInv(Start(workers), history);
    ServerRunKeepsInv(s, steps);
    WorkersStay(Start(workers), history);
    WorkersStay(s, steps);
    var t := RunServer(s, steps);
    assert |Start(workers).workers| == workers;
    if !AtRest(t) {
      var step := ServerNeverStuck(t);
    }
    RestingStateIsComplete(t);
  }

  /** And there is such a run from every reachable state. */
  lemma {:induction false} ServerComesToRest(s: State) returns (steps: seq<ServerStep>)
    requires ServerInv(s) && |s.workers| > 0
    ensures DrivingRun(s, steps) && AtRest(RunServer(s, steps))
    ensures UpToDate(RunServer(s, steps)) && AllFuturesReady(RunServer(s, steps))
    decreases Potential(s)
  {
    hide CanStep, Driving, Potential, AtRest, UpToDate, AllFuturesReady, ServerInv, Do;
    if AtRest(s) {
      steps := [];
      RestingStateIsComplete(s);
    } else {
      var step := ServerNeverStuck(s);
      ServerStepKeepsInv(s, step);
      DrivingStepsLowerThePotential(s, step);
      WorkersStay(s, [step]);
      OneStep(s, step);
      var rest := ServerComesToRest(Do(s, step));
      steps := [step] + rest;
      assert steps[1..] == rest;
    }
  }

  lemma OneStep(s: State, step: ServerStep)
    requires CanStep(s, step)
    ensures LegalRun(s, [step]) && RunServer(s, [step]) == Do(s, step)
  {
    assert LegalRun(Do(s, step), []);
  }
}
