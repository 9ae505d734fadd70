/** The invariant is kept by every step, and what follows for every run of the protocol. */
module RebuildSafety {
  import opened Options
  import opened CppFiles
  import opened RebuildProtocol

  lemma AttemptKeepsInv(p: Protocol, k: nat)
    requires Inv(p) && k < |p.closures|
    requires p.closures[k].phase.Deferred? || p.closures[k].phase.Woken?
    ensures Inv(Attempt(p, k))
  {
    var q := Attempt(p, k);
    assert forall i :: 0 <= i < |p.closures| && i != k ==> q.closures[i] == p.closures[i];
    assert forall i :: 0 <= i < |p.closures| && i != k ==> ClosureOk(p, i) ==> ClosureOk(q, i);
    assert ClosureOk(p, k) && ClosureOk(q, k);
    if SomeoneOwesNotify(p) {
      var o :| 0 <= o < |p.closures| && p.closures[o].phase.OwesNotify();
      assert q.closures[o].phase.OwesNotify();
    }
    if Judge(p.file, k).Admitted? && p.closures[k].kind.Rebuild? {
      assert q.closures[k].phase.InGuard();
    } else if p.file.rebuildInProgress {
      var g :| 0 <= g < |p.closures| && p.closures[g].phase.InGuard();
      assert q.closures[g].phase.InGuard();
    }
  }

  /** Where a closure is once its notify_all is done. */
  function Notified(phase: Phase): Phase
    requires phase.OwesNotify()
  {
    if phase.Notifying? then Deferred else Finished(phase.result)
  }

  function AfterNotify(p: Protocol, k: nat): Protocol
    requires k < |p.closures| && p.closures[k].phase.OwesNotify()
  {
    p.(closures := WakeAll(To(p.closures, k, Notified(p.closures[k].phase))))
  }

  /** Waking changes nobody else's kind, result or place in the guard. */
  lemma NotifyKeepsOthers(p: Protocol, k: nat, i: nat)
    requires k < |p.closures| && p.closures[k].phase.OwesNotify() && i < |p.closures|
    ensures var c, d := p.closures[i], AfterNotify(p, k).closures[i];
      && d.kind == c.kind && !d.phase.Asleep? && d.phase.InGuard() == c.phase.InGuard()
      && (i != k ==> d.phase == if c.phase.Asleep? then Woken else c.phase)
      && (i == k ==> d.phase == Notified(c.phase))
      && (ClosureOk(p, i) ==> ClosureOk(AfterNotify(p, k), i))
  {
  }

  lemma WakeAllKeepsInv(p: Protocol, k: nat)
    requires Inv(p) && k < |p.closures| && p.closures[k].phase.OwesNotify()
    ensures Inv(AfterNotify(p, k))
  {
    hide WakeAll, To, ClosureOk, OnlyLastPending, AfterNotify;
    var q := AfterNotify(p, k);
    NotifyKeepsTheRest(p, k);
    forall i | 0 <= i < |p.closures|
      ensures ClosureOk(q, i)
      ensures q.closures[i].kind == p.closures[i].kind && !q.closures[i].phase.Asleep?
      ensures q.closures[i].phase.InGuard() == p.closures[i].phase.InGuard()
    {
      NotifyKeepsOthers(p, k, i);
    }
    NotifyKeepsOthers(p, k, p.file.rebuildCounter);
  }

  lemma NotifyKeepsTheRest(p: Protocol, k: nat)
    requires k < |p.closures| && p.closures[k].phase.OwesNotify()
    ensures AfterNotify(p, k).file == p.file && |AfterNotify(p, k).closures| == |p.closures|
  {
  }

  lemma RequestKeepsInv(p: Protocol, command: Option<Command>, kind: Kind)
    requires Inv(p) && (kind.Rebuild? || kind.Cancel?)
    ensures Inv(Protocol(Registered(p.file, command), p.closures + [Closure(kind, Notifying)]))
  {
    var q := Protocol(Registered(p.file, command), p.closures + [Closure(kind, Notifying)]);
    var n := |p.closures|;
    assert forall i :: 0 <= i < n ==> q.closures[i] == p.closures[i];
    assert q.closures[n].phase.OwesNotify();
    if p.file.rebuildInProgress {
      var g :| 0 <= g < n && p.closures[g].phase.InGuard();
      assert q.closures[g].phase.InGuard();
    }
    forall i | 0 <= i < |q.closures|
      ensures ClosureOk(q, i)
    {
      assert i < n ==> ClosureOk(p, i);
    }
  }

  lemma GuardStepKeepsInv(p: Protocol, step: Step)
    requires Inv(p) && Enabled(p, step)
    requires step.BuildPreamble? || step.BuildAst? || step.DestroyGuard?
    ensures Inv(Apply(p, step))
  {
    var q, k := Apply(p, step), step.k;
    assert p.closures[k].phase.InGuard() && ClosureOk(p, k);
    assert forall i :: 0 <= i < |p.closures| && i != k ==> q.closures[i] == p.closures[i];
    assert forall i :: 0 <= i < |p.closures| && i != k ==> ClosureOk(p, i) ==> ClosureOk(q, i);
    if step.DestroyGuard? {
      assert q.closures[k].phase.OwesNotify();
      assert forall i :: 0 <= i < |p.closures| && q.closures[i].phase.InGuard() ==> p.closures[i].phase.InGuard();
    } else {
      assert q.closures[k].phase.InGuard();
      if SomeoneOwesNotify(p) {
        var o :| 0 <= o < |p.closures| && p.closures[o].phase.OwesNotify();
        assert q.closures[o].phase.OwesNotify();
      }
    }
  }

  /** Every step of every thread keeps the invariant; in particular no step faults. */
  lemma StepKeepsInv(p: Protocol, step: Step)
    requires Inv(p) && Enabled(p, step)
    ensures Inv(Apply(p, step))
  {
    match step
    case RequestRebuild(command) => RequestKeepsInv(p, Some(command), Rebuild(p.file.latestAvailablePreamble));
    case RequestCancel => RequestKeepsInv(p, None, Cancel);
    case NotifyRequest(k) => WakeAllKeepsInv(p, k);
    case NotifyDeparture(k) => WakeAllKeepsInv(p, k);
    case StartClosure(k) => AttemptKeepsInv(p, k);
    case Recheck(k) => AttemptKeepsInv(p, k);
    case SpuriousWake(k) =>
      var q := Apply(p, step);
      assert forall i :: 0 <= i < |p.closures| && i != k ==> q.closures[i] == p.closures[i];
      assert forall i :: 0 <= i < |p.closures| ==> q.closures[i].phase.InGuard() == p.closures[i].phase.InGuard();
      assert forall i :: 0 <= i < |p.closures| ==> q.closures[i].phase.OwesNotify() == p.closures[i].phase.OwesNotify();
      assert forall i :: 0 <= i < |p.closures| ==> ClosureOk(p, i) ==> ClosureOk(q, i);
    case _ => GuardStepKeepsInv(p, step);
  }

  // ---------------------------------------------------------------- runs

  ghost predicate Legal(p: Protocol, steps: seq<Step>)
    decreases |steps|
  {
    steps == [] || (p.file.Shaped() && Enabled(p, steps[0]) && Legal(Apply(p, steps[0]), steps[1..]))
  }

  ghost function Run(p: Protocol, steps: seq<Step>): Protocol
    requires Legal(p, steps)
    decreases |steps|
  {
    if steps == [] then p else Run(Apply(p, steps[0]), steps[1..])
  }

  lemma {:induction false} RunKeepsInv(p: Protocol, steps: seq<Step>)
    requires Inv(p) && Legal(p, steps)
    ensures Inv(Run(p, steps))
    decreases |steps|
  {
    if steps != [] {
      StepKeepsInv(p, steps[0]);
      RunKeepsInv(Apply(p, steps[0]), steps[1..]);
    }
  }

  /** In every interleaving: at most one closure is between its guard's construction and
      destruction, no promise was set twice and no assertion of ~RebuildGuard failed. */
  lemma EveryRunIsSafe(steps: seq<Step>)
    requires Legal(Initial, steps)
    ensures var p := Run(Initial, steps);
            && !p.file.faulted
            && (forall i, j | 0 <= i < |p.closures| && 0 <= j < |p.closures| ::
                  p.closures[i].phase.InGuard() && p.closures[j].phase.InGuard() ==> i == j)
            && (forall k :: 0 <= k < |p.closures| && p.closures[k].phase.Destroying? ==>
                  p.file.Shaped() && GuardAssertions(p.file, k) && p.file.rebuildInProgress
                  && (k == p.file.rebuildCounter ==>
                        p.file.CurrentPreamble().Fulfilled? && p.file.CurrentAst().Fulfilled?)
                  && (k != p.file.rebuildCounter ==>
                        p.file.CurrentPreamble().Pending? && p.file.CurrentAst().Pending?))
  {
    assert Inv(Initial);
    RunKeepsInv(Initial, steps);
    var p := Run(Initial, steps);
    forall k | 0 <= k < |p.closures| && p.closures[k].phase.Destroying?
      ensures GuardAssertions(p.file, k)
    {
      assert p.closures[k].phase.InGuard();
    }
  }

  /** An unready current future always has the newest request's closure still to come. */
  lemma NoFutureIsStranded(steps: seq<Step>)
    requires Legal(Initial, steps)
    ensures var p := Run(Initial, steps);
            && OnlyLastPending(p.file.preambles) && OnlyLastPending(p.file.asts)
            && p.file.rebuildCounter < |p.closures|
            && (p.file.CurrentPreamble().Pending? || p.file.CurrentAst().Pending? ==>
                  var phase := p.closures[p.file.rebuildCounter].phase;
                  phase.Before() || phase.BuildingPreamble? || phase.BuildingAst?)
  {
    assert Inv(Initial);
    RunKeepsInv(Initial, steps);
  }

  ghost predicate Quiet(p: Protocol) {
    forall k :: 0 <= k < |p.closures| ==> p.closures[k].phase.Finished?
  }

  /** Once every closure has run, every future ever handed out is ready, the current pair was set
      by the latest request, and if that was a cancellation both hold null. */
  lemma QuietFuturesAreReady(steps: seq<Step>)
    requires Legal(Initial, steps) && Quiet(Run(Initial, steps))
    ensures var p := Run(Initial, steps);
            && p.file.Shaped() && p.file.rebuildCounter < |p.closures|
            && (forall i :: 0 <= i < |p.file.preambles| ==> p.file.preambles[i].Fulfilled?)
            && (forall i :: 0 <= i < |p.file.asts| ==> p.file.asts[i].Fulfilled?)
            && SetBy(p.file.CurrentPreamble(), p.file.rebuildCounter)
            && SetBy(p.file.CurrentAst(), p.file.rebuildCounter)
            && (p.closures[p.file.rebuildCounter].kind.Cancel? ==>
                  p.file.CurrentPreamble().value.None? && p.file.CurrentAst().value.None?)
  {
    assert Inv(Initial);
    RunKeepsInv(Initial, steps);
  }

  /** A future keeps its identity, and its value once it has one. */
  ghost predicate Extends<T>(before: seq<Promise<T>>, after: seq<Promise<T>>) {
    && |before| <= |after|
    && forall i :: 0 <= i < |before| && before[i].Fulfilled? ==> after[i] == before[i]
  }

  lemma StepExtends(p: Protocol, step: Step)
    requires Inv(p) && Enabled(p, step)
    ensures Extends(p.file.preambles, Apply(p, step).file.preambles)
    ensures Extends(p.file.asts, Apply(p, step).file.asts)
  {
    StepKeepsInv(p, step);
  }

  /** No run takes back or changes a value that some client may already have read. */
  lemma {:induction false} FulfilledFuturesNeverChange(p: Protocol, steps: seq<Step>)
    requires Inv(p) && Legal(p, steps)
    ensures Extends(p.file.preambles, Run(p, steps).file.preambles)
    ensures Extends(p.file.asts, Run(p, steps).file.asts)
    decreases |steps|
  {
    if steps != [] {
      StepExtends(p, steps[0]);
      StepKeepsInv(p, steps[0]);
      FulfilledFuturesNeverChange(Apply(p, steps[0]), steps[1..]);
    }
  }

  /** A future that was unready when a new request came in waits for that request instead. */
  lemma UnreadyFuturesWaitForTheNewRequest(p: Protocol, command: Option<Command>)
    requires Inv(p)
    ensures var f := Registered(p.file, command);
            && (p.file.CurrentPreamble().Pending? ==> f.preambles == p.file.preambles)
            && (p.file.CurrentAst().Pending? ==> f.asts == p.file.asts)
            && f.CurrentPreamble().Pending? && f.CurrentAst().Pending?
  {
  }

  // ---------------------------------------------------------------- wakeups

  /** The only closure that may stay asleep is the newest one, behind a rebuild in progress. */
  lemma SleepersAreNeverForgotten(steps: seq<Step>, k: nat)
    requires Legal(Initial, steps)
    requires var p := Run(Initial, steps); k < |p.closures| && p.closures[k].phase.Asleep?
    ensures var p := Run(Initial, steps);
            SomeoneOwesNotify(p) || (k == p.file.rebuildCounter && p.file.rebuildInProgress)
  {
    assert Inv(Initial);
    RunKeepsInv(Initial, steps);
  }

  // ---------------------------------------------------------------- getLastCommand

  function LastRebuildCommand(steps: seq<Step>): Option<Command> {
    if steps == [] then None
    else if steps[|steps| - 1].RequestRebuild? then Some(steps[|steps| - 1].command)
    else LastRebuildCommand(steps[..|steps| - 1])
  }

  lemma {:induction false} CommandOfRun(p: Protocol, steps: seq<Step>)
    requires Inv(p) && Legal(p, steps)
    ensures Run(p, steps).file.lastCommand ==
            if LastRebuildCommand(steps).Some? then LastRebuildCommand(steps) else p.file.lastCommand
    decreases |steps|
  {
    if steps != [] {
      StepKeepsInv(p, steps[0]);
      CommandOfRun(Apply(p, steps[0]), steps[1..]);
      CommandOfCons(steps);
    }
  }

  lemma {:induction false} CommandOfCons(steps: seq<Step>)
    requires steps != []
    ensures LastRebuildCommand(steps) ==
            if LastRebuildCommand(steps[1..]).Some? then LastRebuildCommand(steps[1..])
            else LastRebuildCommand(steps[..1])
  {
    var n := |steps| - 1;
    if n > 0 {
      assert steps[1..][..n - 1] == steps[..n][1..] && steps[..n][..1] == steps[..1];
      CommandOfCons(steps[..n]);
    }
  }

  /** getLastCommand returns the command of the last rebuild request: cancellations never reset it. */
  lemma LastCommandIgnoresCancellations(steps: seq<Step>)
    requires Legal(Initial, steps)
    ensures Run(Initial, steps).file.lastCommand == LastRebuildCommand(steps)
  {
    assert Inv(Initial);
    CommandOfRun(Initial, steps);
  }

  /** What is written above getLastCommand: None before the first rebuild and after a cancellation. */
  function DocumentedCommand(steps: seq<Step>): Option<Command> {
    if steps == [] || steps[|steps| - 1].RequestCancel? then None
    else if steps[|steps| - 1].RequestRebuild? then Some(steps[|steps| - 1].command)
    else DocumentedCommand(steps[..|steps| - 1])
  }

  predicate NeverRebuilt(steps: seq<Step>) {
    forall i :: 0 <= i < |steps| ==> !steps[i].RequestRebuild?
  }

  /** Some rebuild request has no cancellation after it. */
  predicate RebuiltLast(steps: seq<Step>) {
    exists i :: 0 <= i < |steps| && steps[i].RequestRebuild? && NotCancelledFrom(steps, i)
  }

  predicate NotCancelledFrom(steps: seq<Step>, i: nat) {
    forall j :: i <= j < |steps| ==> !steps[j].RequestCancel?
  }

  lemma {:induction false} CommandsOfUnrebuilt(steps: seq<Step>)
    ensures NeverRebuilt(steps) <==> LastRebuildCommand(steps).None?
    ensures NeverRebuilt(steps) ==> DocumentedCommand(steps).None?
    decreases |steps|
  {
    if steps != [] {
      var n := |steps| - 1;
      CommandsOfUnrebuilt(steps[..n]);
      assert forall i :: 0 <= i < n ==> steps[..n][i] == steps[i];
    }
  }

  lemma {:induction false} DocumentedUnlessCancelled(steps: seq<Step>)
    ensures RebuiltLast(steps) <==> DocumentedCommand(steps).Some?
    ensures RebuiltLast(steps) ==> DocumentedCommand(steps) == LastRebuildCommand(steps)
    decreases |steps|
  {
    if steps != [] {
      var n := |steps| - 1;
      var before := steps[..n];
      DocumentedUnlessCancelled(before);
      assert forall i :: 0 <= i < n ==> before[i] == steps[i];
      if steps[n].RequestRebuild? {
        assert NotCancelledFrom(steps, n);
      } else if !steps[n].RequestCancel? {
        assert forall i :: 0 <= i < n ==> (NotCancelledFrom(before, i) <==> NotCancelledFrom(steps, i));
      }
    }
  }

  /** The code returns what is documented exactly if no rebuild was ever requested, or none was cancelled since. */
  lemma LastCommandIsAsDocumentedIff(steps: seq<Step>)
    requires Legal(Initial, steps)
    ensures Run(Initial, steps).file.lastCommand == DocumentedCommand(steps) <==> NeverRebuilt(steps) || RebuiltLast(steps)
  {
    LastCommandIgnoresCancellations(steps);
    CommandsOfUnrebuilt(steps);
    DocumentedUnlessCancelled(steps);
  }

  /** A rebuild request and then a cancellation: the command is still there. */
  lemma CancelledCommandIsKept(command: Command)
    ensures var steps := [RequestRebuild(command), RequestCancel];
      && Legal(Initial, steps)
      && Run(Initial, steps).file.lastCommand == Some(command)
      && DocumentedCommand(steps) == None
  {
    var steps := [RequestRebuild(command), RequestCancel];
    var first := Apply(Initial, steps[0]);
    assert steps[1..] == [RequestCancel] && steps[1..][1..] == [];
    assert Legal(Apply(first, RequestCancel), []);
    assert Legal(first, [RequestCancel]);
    assert Legal(Initial, steps);
    LastCommandIgnoresCancellations(steps);
    assert steps[..1] == [RequestRebuild(command)];
  }
}
