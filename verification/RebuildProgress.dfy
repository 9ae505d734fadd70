/** Some closure can always move, and no schedule runs forever. */
module RebuildProgress {
  import opened Options
  import opened CppFiles
  import opened RebuildProtocol
  import opened RebuildSafety

  /** Steps a scheduler owes the protocol: everything but new requests and spurious wakeups. */
  predicate Productive(step: Step) {
    !step.RequestRebuild? && !step.RequestCancel? && !step.SpuriousWake?
  }

  /** The step that moves closure k on, if it has one. */
  function NextStep(k: nat, phase: Phase): (step: Step)
    requires !phase.Asleep? && !phase.Finished?
    ensures Productive(step)
  {
    match phase
    case Notifying => NotifyRequest(k)
    case Deferred => StartClosure(k)
    case Woken => Recheck(k)
    case BuildingPreamble => BuildPreamble(k, None)
    case BuildingAst(_) => BuildAst(k, None)
    case Destroying(_) => DestroyGuard(k)
    case Departing(_) => NotifyDeparture(k)
  }

  /** No deadlock: as long as some closure is unfinished, some closure can move. */
  lemma NoDeadlock(p: Protocol) returns (step: Step)
    requires Inv(p) && !Quiet(p)
    ensures Productive(step) && Enabled(p, step)
  {
    var k :| 0 <= k < |p.closures| && !p.closures[k].phase.Finished?;
    if p.closures[k].phase.Asleep? {
      if SomeoneOwesNotify(p) {
        k :| 0 <= k < |p.closures| && p.closures[k].phase.OwesNotify();
      } else {
        assert Judge(p.file, k) == Blocked;
        k :| 0 <= k < |p.closures| && p.closures[k].phase.InGuard();
      }
    }
    step := NextStep(k, p.closures[k].phase);
  }

  function Weight(phase: Phase): nat {
    match phase
    case Notifying => 7
    case Deferred => 6
    case Asleep => 5
    case Woken => 5
    case BuildingPreamble => 4
    case BuildingAst(_) => 3
    case Destroying(_) => 2
    case Departing(_) => 1
    case Finished(_) => 0
  }

  function TotalWeight(cs: seq<Closure>): nat {
    if cs == [] then 0 else TotalWeight(cs[..|cs| - 1]) + Weight(cs[|cs| - 1].phase)
  }

  function AwakeCount(cs: seq<Closure>): nat {
    if cs == [] then 0
    else AwakeCount(cs[..|cs| - 1]) + if cs[|cs| - 1].phase.Woken? then 1 else 0
  }

  lemma {:induction false} WeightOfUpdate(cs: seq<Closure>, k: nat, phase: Phase)
    requires k < |cs|
    ensures TotalWeight(To(cs, k, phase)) == TotalWeight(cs) - Weight(cs[k].phase) + Weight(phase)
    ensures AwakeCount(To(cs, k, phase)) ==
            AwakeCount(cs) - (if cs[k].phase.Woken? then 1 else 0) + if phase.Woken? then 1 else 0
  {
    var ds, n := To(cs, k, phase), |cs| - 1;
    if k == n {
      assert ds[..n] == cs[..n];
    } else {
      WeightOfUpdate(cs[..n], k, phase);
      assert ds[..n] == To(cs[..n], k, phase);
    }
  }

  lemma {:induction false} WakingIsFree(cs: seq<Closure>)
    ensures TotalWeight(WakeAll(cs)) == TotalWeight(cs)
  {
    if cs != [] {
      WakingIsFree(cs[..|cs| - 1]);
      assert WakeAll(cs)[..|cs| - 1] == WakeAll(cs[..|cs| - 1]);
    }
  }

  lemma {:induction false} AwakeBound(cs: seq<Closure>)
    ensures AwakeCount(cs) <= |cs| && TotalWeight(cs) <= 7 * |cs|
  {
    if cs != [] {
      AwakeBound(cs[..|cs| - 1]);
    }
  }

  function Rank(p: Protocol): nat {
    TotalWeight(p.closures) * (|p.closures| + 1) + AwakeCount(p.closures)
  }

  lemma ScaleUp(a: nat, b: nat, n: nat)
    requires a <= b
    ensures a * n <= b * n
  {
  }

  /** Any drop in weight outdoes any rise in the number of awake waiters. */
  lemma RankArithmetic(a: nat, b: nat, awake: nat, n: nat)
    requires a < b && awake < n
    ensures a * n + awake < b * n
  {
    ScaleUp(a + 1, b, n);
    assert (a + 1) * n == a * n + n;
  }

  lemma RankIsLexicographic(p: Protocol, q: Protocol)
    requires |p.closures| == |q.closures|
    requires TotalWeight(q.closures) < TotalWeight(p.closures) ||
             (TotalWeight(q.closures) == TotalWeight(p.closures) && AwakeCount(q.closures) < AwakeCount(p.closures))
    ensures Rank(q) < Rank(p)
  {
    AwakeBound(q.closures);
    var n := |p.closures| + 1;
    if TotalWeight(q.closures) < TotalWeight(p.closures) {
      RankArithmetic(TotalWeight(q.closures), TotalWeight(p.closures), AwakeCount(q.closures), n);
    }
  }

  /** A closure that took the mutex moved on, or fell asleep after being awake. */
  lemma AttemptLowersTheRank(p: Protocol, k: nat)
    requires p.file.Shaped() && k < |p.closures|
    requires p.closures[k].phase.Deferred? || p.closures[k].phase.Woken?
    ensures |Attempt(p, k).closures| == |p.closures| && Rank(Attempt(p, k)) < Rank(p)
  {
    var q := Attempt(p, k);
    assert q.closures == To(p.closures, k, q.closures[k].phase);
    WeightOfUpdate(p.closures, k, q.closures[k].phase);
    RankIsLexicographic(p, q);
  }

  lemma NotifyLowersTheRank(p: Protocol, k: nat, phase: Phase)
    requires k < |p.closures| && Weight(phase) < Weight(p.closures[k].phase)
    ensures Rank(p.(closures := WakeAll(To(p.closures, k, phase)))) < Rank(p)
  {
    WeightOfUpdate(p.closures, k, phase);
    WakingIsFree(To(p.closures, k, phase));
    RankIsLexicographic(p, p.(closures := WakeAll(To(p.closures, k, phase))));
  }

  lemma ProductiveStepsLowerTheRank(p: Protocol, step: Step)
    requires p.file.Shaped() && Enabled(p, step) && Productive(step)
    ensures |Apply(p, step).closures| == |p.closures| && Rank(Apply(p, step)) < Rank(p)
  {
    var q := Apply(p, step);
    if step.NotifyRequest? {
      NotifyLowersTheRank(p, step.k, Deferred);
    } else if step.NotifyDeparture? {
      NotifyLowersTheRank(p, step.k, Finished(p.closures[step.k].phase.result));
    } else if step.StartClosure? || step.Recheck? {
      AttemptLowersTheRank(p, step.k);
    } else {
      WeightOfUpdate(p.closures, step.k, q.closures[step.k].phase);
      RankIsLexicographic(p, q);
    }
  }

  lemma RankBound(p: Protocol)
    ensures Rank(p) <= (7 * |p.closures| + 1) * (|p.closures| + 1)
  {
    AwakeBound(p.closures);
    var n := |p.closures| + 1;
    ScaleUp(TotalWeight(p.closures), 7 * |p.closures|, n);
    assert (7 * |p.closures| + 1) * n == 7 * |p.closures| * n + n;
  }

  /** Without new requests and spurious wakeups, no schedule runs forever: the closures of n
      requests take at most (7n + 8)(n + 2) steps, counting the constructor's entry. */
  lemma {:induction false} RunsTerminate(p: Protocol, steps: seq<Step>)
    requires Inv(p) && Legal(p, steps) && forall i :: 0 <= i < |steps| ==> Productive(steps[i])
    ensures |steps| <= Rank(p) <= (7 * |p.closures| + 1) * (|p.closures| + 1)
    decreases |steps|
  {
    RankBound(p);
    if steps != [] {
      StepKeepsInv(p, steps[0]);
      ProductiveStepsLowerTheRank(p, steps[0]);
      RunsTerminate(Apply(p, steps[0]), steps[1..]);
    }
  }
}
