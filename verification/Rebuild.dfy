/** Arbitrary interleavings of rebuild and cancel requests on one CppFile with their deferred
    closures, one step per lock region, with the condition variable's waits and notifications. */
module RebuildProtocol {
  import opened Options
  import opened CppFiles

  datatype Outcome = NoDiagnostics | Diagnostics(diags: seq<nat>)

  /** Where a request and its closure are.
      Notifying: registered, the requesting thread still owes notify_all.
      Deferred: the closure was returned and has not been run.
      Asleep / Woken: inside RebuildCond.wait, blocked / about to retake the mutex.
      BuildingPreamble .. Destroying: between the guard's construction and destruction.
      Departing: destructor released the mutex and still owes notify_all. */
  datatype Phase =
    | Notifying
    | Deferred
    | Asleep
    | Woken
    | BuildingPreamble
    | BuildingAst(preamble: Option<Preamble>)
    | Destroying(result: Outcome)
    | Departing(result: Outcome)
    | Finished(result: Outcome)
  {
    predicate InGuard() { BuildingPreamble? || BuildingAst? || Destroying? }

    predicate Before() { Notifying? || Deferred? || Asleep? || Woken? }

    predicate Settled() { Destroying? || Departing? || Finished? }

    predicate OwesNotify() { Notifying? || Departing? }
  }

  /** Request 0 is the constructor's own fulfilment of both promises. */
  datatype Kind = Construction | Rebuild(oldPreamble: Option<Preamble>) | Cancel

  datatype Closure = Closure(kind: Kind, phase: Phase)

  /** closures[k] belongs to the request numbered k. */
  datatype Protocol = Protocol(file: FileState, closures: seq<Closure>)

  datatype Step =
    | RequestRebuild(command: Command)
    | RequestCancel
    | NotifyRequest(k: nat)
    | StartClosure(k: nat)
    | SpuriousWake(k: nat)
    | Recheck(k: nat)
    | BuildPreamble(k: nat, built: Option<Preamble>)
    | BuildAst(k: nat, ast: Option<Ast>)
    | DestroyGuard(k: nat)
    | NotifyDeparture(k: nat)

  const Initial := Protocol(Created(), [Closure(Construction, Finished(NoDiagnostics))])

  predicate Enabled(p: Protocol, step: Step) {
    match step
    case RequestRebuild(_) => true
    case RequestCancel => true
    case NotifyRequest(k) => k < |p.closures| && p.closures[k].phase.Notifying?
    case StartClosure(k) => k < |p.closures| && p.closures[k].phase.Deferred?
    case SpuriousWake(k) => k < |p.closures| && p.closures[k].phase.Asleep?
    case Recheck(k) => k < |p.closures| && p.closures[k].phase.Woken?
    case BuildPreamble(k, _) => k < |p.closures| && p.closures[k].phase.BuildingPreamble?
    case BuildAst(k, _) => k < |p.closures| && p.closures[k].phase.BuildingAst?
    case DestroyGuard(k) => k < |p.closures| && p.closures[k].phase.Destroying?
    case NotifyDeparture(k) => k < |p.closures| && p.closures[k].phase.Departing?
  }

  function To(closures: seq<Closure>, k: nat, phase: Phase): seq<Closure>
    requires k < |closures|
  {
    closures[k := closures[k].(phase := phase)]
  }

  /** notify_all: every closure asleep on the condition variable will retake the mutex. */
  function WakeAll(closures: seq<Closure>): (woken: seq<Closure>)
    ensures |woken| == |closures|
  {
    seq(|closures|, i requires 0 <= i < |closures| =>
      if closures[i].phase.Asleep? then closures[i].(phase := Woken) else closures[i])
  }

  /** A closure takes the mutex, at its start or inside the wait, and goes as far as it can. */
  function Attempt(p: Protocol, k: nat): Protocol
    requires p.file.Shaped() && k < |p.closures|
  {
    match Judge(p.file, k)
    case Superseded => p.(closures := To(p.closures, k, Finished(NoDiagnostics)))
    case Blocked => p.(closures := To(p.closures, k, Asleep))
    case Admitted =>
      if p.closures[k].kind.Rebuild? then
        Protocol(Entered(p.file), To(p.closures, k, BuildingPreamble))
      else
        Protocol(Nulled(p.file, k), To(p.closures, k, Finished(NoDiagnostics)))
  }

  function Apply(p: Protocol, step: Step): Protocol
    requires p.file.Shaped() && Enabled(p, step)
  {
    match step
    case RequestRebuild(command) =>
      Protocol(Registered(p.file, Some(command)),
               p.closures + [Closure(Rebuild(p.file.latestAvailablePreamble), Notifying)])
    case RequestCancel =>
      Protocol(Registered(p.file, None), p.closures + [Closure(Cancel, Notifying)])
    case NotifyRequest(k) => p.(closures := WakeAll(To(p.closures, k, Deferred)))
    case StartClosure(k) => Attempt(p, k)
    case SpuriousWake(k) => p.(closures := To(p.closures, k, Woken))
    case Recheck(k) => Attempt(p, k)
    case BuildPreamble(k, built) =>
      Protocol(PreamblePublished(p.file, k, built),
               To(p.closures, k,
                  if p.file.rebuildCounter != k then Destroying(NoDiagnostics) else BuildingAst(built)))
    case BuildAst(k, ast) =>
      Protocol(AstPublished(p.file, k, ast),
               To(p.closures, k, Destroying(Diagnostics(ReportedDiags(p.closures[k].phase.preamble, ast)))))
    case DestroyGuard(k) =>
      Protocol(Left(p.file, k), To(p.closures, k, Departing(p.closures[k].phase.result)))
    case NotifyDeparture(k) =>
      p.(closures := WakeAll(To(p.closures, k, Finished(p.closures[k].phase.result))))
  }

  // ---------------------------------------------------------------- the invariant

  /** Every promise but the current one is fulfilled: none was replaced while pending. */
  ghost predicate OnlyLastPending<T>(ps: seq<Promise<T>>) {
    |ps| > 0 && forall i :: 0 <= i < |ps| - 1 ==> ps[i].Fulfilled?
  }

  predicate SetBy<T>(p: Promise<T>, k: nat) {
    p.Fulfilled? && p.setter == k
  }

  /** How the current promises look, given how far the newest request's closure is. */
  ghost predicate NewestAgrees(f: FileState, newest: Closure)
    requires f.Shaped()
  {
    var phase := newest.phase;
    && (phase.Before() || phase.BuildingPreamble? ==> f.CurrentPreamble().Pending? && f.CurrentAst().Pending?)
    && (phase.BuildingAst? ==>
          f.CurrentPreamble() == Fulfilled(phase.preamble, f.rebuildCounter) && f.CurrentAst().Pending?)
    && (phase.Settled() ==>
          SetBy(f.CurrentPreamble(), f.rebuildCounter) && SetBy(f.CurrentAst(), f.rebuildCounter))
    && (phase.Settled() && !newest.kind.Rebuild? ==>
          f.CurrentPreamble().value.None? && f.CurrentAst().value.None?)
  }

  ghost predicate MutualExclusion(p: Protocol) {
    && (forall i, j | 0 <= i < |p.closures| && 0 <= j < |p.closures| ::
          p.closures[i].phase.InGuard() && p.closures[j].phase.InGuard() ==> i == j)
    && (p.file.rebuildInProgress <==> exists k :: 0 <= k < |p.closures| && p.closures[k].phase.InGuard())
  }

  ghost predicate ClosureOk(p: Protocol, k: nat)
    requires k < |p.closures|
  {
    var c := p.closures[k];
    && (c.kind.Construction? <==> k == 0)
    && (c.phase.InGuard() || c.phase.Departing? ==> c.kind.Rebuild?)
    && (c.kind.Construction? ==> c.phase.Finished?)
    && (c.kind.Rebuild? && c.phase.Settled() && c.phase.result.NoDiagnostics? ==> k < p.file.rebuildCounter)
  }

  /** While a superseded rebuild is still in its guard, the newest request has not begun. */
  ghost predicate NewestWaits(p: Protocol)
    requires p.file.rebuildCounter < |p.closures|
  {
    forall k :: 0 <= k < p.file.rebuildCounter && p.closures[k].phase.InGuard() ==>
      p.closures[p.file.rebuildCounter].phase.Before()
  }

  ghost predicate SomeoneOwesNotify(p: Protocol) {
    exists k :: 0 <= k < |p.closures| && p.closures[k].phase.OwesNotify()
  }

  /** No lost wakeup: with nobody owing a notify_all, a sleeper's wait predicate is false. */
  ghost predicate NoLostWakeup(p: Protocol) {
    SomeoneOwesNotify(p) ||
    forall k :: 0 <= k < |p.closures| && p.closures[k].phase.Asleep? ==> Judge(p.file, k) == Blocked
  }

  ghost predicate Inv(p: Protocol) {
    && !p.file.faulted
    && |p.closures| == p.file.rebuildCounter + 1
    && OnlyLastPending(p.file.preambles)
    && OnlyLastPending(p.file.asts)
    && (forall k :: 0 <= k < |p.closures| ==> ClosureOk(p, k))
    && MutualExclusion(p)
    && NewestAgrees(p.file, p.closures[p.file.rebuildCounter])
    && NewestWaits(p)
    && NoLostWakeup(p)
  }
}
