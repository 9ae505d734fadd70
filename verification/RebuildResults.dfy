/** What comes out of a run: the value of every future, the preamble kept for later and the
    diagnostics of every closure, each traced back to the steps that built them. */
module RebuildResults {
  import opened Options
  import opened CppFiles
  import opened RebuildProtocol
  import opened RebuildSafety

  // ---------------------------------------------------------------- reading the steps of a run

  /** The requests of a run in order; the request numbered k is Requests(steps)[k - 1]. */
  function Requests(steps: seq<Step>): seq<Step> {
    if steps == [] then []
    else
      var last := steps[|steps| - 1];
      Requests(steps[..|steps| - 1]) + if last.RequestRebuild? || last.RequestCancel? then [last] else []
  }

  /** The preamble of the last preamble build, whoever asked for it. */
  function LatestBuilt(steps: seq<Step>): Option<Preamble> {
    if steps == [] then None
    else if steps[|steps| - 1].BuildPreamble? then steps[|steps| - 1].built
    else LatestBuilt(steps[..|steps| - 1])
  }

  ghost predicate PreambleBuilt(steps: seq<Step>, k: nat) {
    exists built :: BuildPreamble(k, built) in steps
  }

  ghost predicate AstBuilt(steps: seq<Step>, k: nat) {
    exists ast :: BuildAst(k, ast) in steps
  }

  predicate IsRebuild(steps: seq<Step>, k: nat) {
    0 < k <= |Requests(steps)| && Requests(steps)[k - 1].RequestRebuild?
  }

  /** Request k was still the newest when its preamble was published. */
  predicate PreambleInTime(steps: seq<Step>, k: nat) {
    exists i :: 0 <= i < |steps| && steps[i].BuildPreamble? && steps[i].k == k && |Requests(steps[..i])| == k
  }

  /** The diagnostics that the two builds of request k add up to. */
  ghost predicate DiagnosticsOf(steps: seq<Step>, k: nat, diags: seq<nat>) {
    exists built, ast ::
      && BuildPreamble(k, built) in steps && BuildAst(k, ast) in steps
      && (ast.None? ==> diags == [])
      && (ast.Some? && built.None? ==> diags == ast.value.diags)
      && (ast.Some? && built.Some? ==> diags == built.value.diags + ast.value.diags)
  }

  // ---------------------------------------------------------------- the history of a state

  ghost predicate ClosureHistory(steps: seq<Step>, k: nat, c: Closure) {
    && (c.kind.Rebuild? <==> IsRebuild(steps, k))
    && (c.phase.Before() || c.phase.BuildingPreamble? ==> !PreambleBuilt(steps, k) && !PreambleInTime(steps, k))
    && (!c.phase.Settled() ==> !AstBuilt(steps, k))
    && (c.phase.BuildingAst? ==> BuildPreamble(k, c.phase.preamble) in steps && PreambleInTime(steps, k))
    && (c.phase.Settled() && c.phase.result.NoDiagnostics? ==> !AstBuilt(steps, k) && !PreambleInTime(steps, k))
    && (c.phase.Settled() && c.phase.result.Diagnostics? ==>
          PreambleInTime(steps, k) && DiagnosticsOf(steps, k, c.phase.result.diags))
  }

  ghost predicate PreambleHistory(steps: seq<Step>, p: Promise<Option<Preamble>>) {
    p.Fulfilled? ==>
      && p.setter <= |Requests(steps)|
      && if IsRebuild(steps, p.setter) then BuildPreamble(p.setter, p.value) in steps else p.value == None
  }

  ghost predicate AstHistory(steps: seq<Step>, p: Promise<Option<Ast>>) {
    p.Fulfilled? ==>
      && p.setter <= |Requests(steps)|
      && if IsRebuild(steps, p.setter) then BuildAst(p.setter, p.value) in steps else p.value == None
  }

  predicate SameBuild(a: Step, b: Step) {
    || (a.BuildPreamble? && b.BuildPreamble? && a.k == b.k)
    || (a.BuildAst? && b.BuildAst? && a.k == b.k)
  }

  /** No request's preamble, and no request's AST, is built twice. */
  predicate BuiltOnce(steps: seq<Step>) {
    forall i, j :: 0 <= i < j < |steps| ==> !SameBuild(steps[i], steps[j])
  }

  /** The preamble a rebuild may reuse is the latest one built before the request. */
  ghost predicate RemembersPreambles(steps: seq<Step>, closures: seq<Closure>) {
    forall i :: 0 <= i < |steps| && steps[i].RequestRebuild? ==> RemembersAt(steps[..i], closures)
  }

  predicate RemembersAt(before: seq<Step>, closures: seq<Closure>) {
    var k := |Requests(before)| + 1;
    k < |closures| && closures[k].kind == Rebuild(LatestBuilt(before))
  }

  ghost predicate History(steps: seq<Step>, p: Protocol) {
    && |p.closures| == |Requests(steps)| + 1
    && p.file.latestAvailablePreamble == LatestBuilt(steps)
    && (forall k :: 0 <= k < |p.closures| ==> ClosureHistory(steps, k, p.closures[k]))
    && (forall i :: 0 <= i < |p.file.preambles| ==> PreambleHistory(steps, p.file.preambles[i]))
    && (forall i :: 0 <= i < |p.file.asts| ==> AstHistory(steps, p.file.asts[i]))
    && BuiltOnce(steps)
    && (forall k :: k >= |p.closures| ==> Untouched(steps, k))
    && RemembersPreambles(steps, p.closures)
  }

  ghost predicate Untouched(steps: seq<Step>, k: nat) {
    !PreambleBuilt(steps, k) && !AstBuilt(steps, k) && !PreambleInTime(steps, k)
  }

  // ---------------------------------------------------------------- one more step

  lemma RequestsAfter(steps: seq<Step>, step: Step)
    ensures Requests(steps + [step]) ==
            Requests(steps) + if step.RequestRebuild? || step.RequestCancel? then [step] else []
    ensures LatestBuilt(steps + [step]) == if step.BuildPreamble? then step.built else LatestBuilt(steps)
    ensures forall i :: 0 <= i <= |steps| ==> (steps + [step])[..i] == steps[..i]
  {
    assert (steps + [step])[..|steps|] == steps;
  }

  /** What the readings of request k's part in a run become when the run goes on. */
  lemma ReadingsAfter(steps: seq<Step>, step: Step, k: nat)
    ensures k <= |Requests(steps)| ==> IsRebuild(steps + [step], k) == IsRebuild(steps, k)
    ensures PreambleBuilt(steps + [step], k) <==> PreambleBuilt(steps, k) || (step.BuildPreamble? && step.k == k)
    ensures AstBuilt(steps + [step], k) <==> AstBuilt(steps, k) || (step.BuildAst? && step.k == k)
    ensures PreambleInTime(steps + [step], k) <==>
            PreambleInTime(steps, k) || (step.BuildPreamble? && step.k == k && |Requests(steps)| == k)
  {
    hide LatestBuilt;
    var longer := steps + [step];
    RequestsAfter(steps, step);
    assert longer[|steps|] == step && forall i :: 0 <= i < |steps| ==> longer[i] == steps[i];
    assert step in longer;
    if PreambleInTime(steps, k) {
      var i :| 0 <= i < |steps| && steps[i].BuildPreamble? && steps[i].k == k && |Requests(steps[..i])| == k;
      assert longer[..i] == steps[..i];
    }
    assert steps[..|steps|] == steps;
    if PreambleBuilt(longer, k) {
      var built :| BuildPreamble(k, built) in longer;
      assert BuildPreamble(k, built) in steps || step == BuildPreamble(k, built);
    }
    if AstBuilt(longer, k) {
      var ast :| BuildAst(k, ast) in longer;
      assert BuildAst(k, ast) in steps || step == BuildAst(k, ast);
    }
    if step.BuildPreamble? && step.k == k {
      assert step == BuildPreamble(k, step.built);
    }
    if step.BuildAst? && step.k == k {
      assert step == BuildAst(k, step.ast);
    }
  }

  lemma DiagnosticsRemain(steps: seq<Step>, step: Step, k: nat, diags: seq<nat>)
    requires DiagnosticsOf(steps, k, diags)
    ensures DiagnosticsOf(steps + [step], k, diags)
  {
    var built, ast :|
      && BuildPreamble(k, built) in steps && BuildAst(k, ast) in steps
      && (ast.None? ==> diags == [])
      && (ast.Some? && built.None? ==> diags == ast.value.diags)
      && (ast.Some? && built.Some? ==> diags == built.value.diags + ast.value.diags);
    assert BuildPreamble(k, built) in steps + [step] && BuildAst(k, ast) in steps + [step];
  }

  /** The ways a closure moves in a step that builds nothing for it. */
  predicate Onward(before: Phase, after: Phase) {
    && (before.Before() ==> after.Before() || after.BuildingPreamble? || after == Finished(NoDiagnostics))
    && (before.BuildingPreamble? || before.BuildingAst? ==> after == before)
    && (before.Settled() ==> after.Settled() && after.result == before.result)
  }

  lemma HistoryOnward(steps: seq<Step>, step: Step, k: nat, c: Closure, d: Closure)
    requires ClosureHistory(steps, k, c) && k <= |Requests(steps)|
    requires d.kind == c.kind && Onward(c.phase, d.phase)
    requires !(step.BuildPreamble? && step.k == k) && !(step.BuildAst? && step.k == k)
    ensures ClosureHistory(steps + [step], k, d)
  {
    hide IsRebuild, PreambleBuilt, AstBuilt, PreambleInTime, DiagnosticsOf, Requests;
    ReadingsAfter(steps, step, k);
    if c.phase.Settled() && c.phase.result.Diagnostics? {
      DiagnosticsRemain(steps, step, k, c.phase.result.diags);
    }
  }

  lemma PromisesRemain(steps: seq<Step>, step: Step, p: Protocol)
    requires History(steps, p)
    ensures forall i :: 0 <= i < |p.file.preambles| ==> PreambleHistory(steps + [step], p.file.preambles[i])
    ensures forall i :: 0 <= i < |p.file.asts| ==> AstHistory(steps + [step], p.file.asts[i])
  {
    hide IsRebuild, ClosureHistory, Requests, LatestBuilt, RemembersPreambles, BuiltOnce;
    RequestsAfter(steps, step);
    forall i | 0 <= i < |p.file.preambles|
      ensures PreambleHistory(steps + [step], p.file.preambles[i])
    {
      if p.file.preambles[i].Fulfilled? {
        ReadingsAfter(steps, step, p.file.preambles[i].setter);
      }
    }
    forall i | 0 <= i < |p.file.asts|
      ensures AstHistory(steps + [step], p.file.asts[i])
    {
      if p.file.asts[i].Fulfilled? {
        ReadingsAfter(steps, step, p.file.asts[i].setter);
      }
    }
  }

  lemma OldPreamblesRemain(steps: seq<Step>, step: Step, closures: seq<Closure>, after: seq<Closure>)
    requires RemembersPreambles(steps, closures) && |closures| <= |after|
    requires forall k :: 0 <= k < |closures| ==> after[k].kind == closures[k].kind
    requires step.RequestRebuild? ==>
               |Requests(steps)| + 1 < |after| && after[|Requests(steps)| + 1].kind == Rebuild(LatestBuilt(steps))
    ensures RemembersPreambles(steps + [step], after)
  {
    hide Requests, LatestBuilt;
    RequestsAfter(steps, step);
    var longer := steps + [step];
    assert steps[..|steps|] == steps;
    forall i | 0 <= i < |longer| && longer[i].RequestRebuild?
      ensures RemembersAt(longer[..i], after)
    {
      assert longer[..i] == steps[..i];
      if i < |steps| {
        assert longer[i] == steps[i];
        assert RemembersAt(steps[..i], closures);
      }
    }
  }

  lemma BuildsRemainUnique(steps: seq<Step>, step: Step)
    requires BuiltOnce(steps)
    requires step.BuildPreamble? ==> !PreambleBuilt(steps, step.k)
    requires step.BuildAst? ==> !AstBuilt(steps, step.k)
    ensures BuiltOnce(steps + [step])
  {
    var longer := steps + [step];
    assert forall i :: 0 <= i < |steps| ==> longer[i] == steps[i] && steps[i] in steps;
    forall i | 0 <= i < |steps|
      ensures !SameBuild(steps[i], step)
    {
      if SameBuild(steps[i], step) {
        SameBuildMeansBuilt(steps, i, step);
      }
    }
  }

  lemma SameBuildMeansBuilt(steps: seq<Step>, i: nat, step: Step)
    requires i < |steps| && SameBuild(steps[i], step)
    ensures step.BuildPreamble? ==> PreambleBuilt(steps, step.k)
    ensures step.BuildAst? ==> AstBuilt(steps, step.k)
  {
    if step.BuildPreamble? {
      assert steps[i] == BuildPreamble(step.k, steps[i].built);
    } else {
      assert steps[i] == BuildAst(step.k, steps[i].ast);
    }
  }

  lemma RequestKeepsHistory(steps: seq<Step>, p: Protocol, step: Step)
    requires p.file.Shaped() && History(steps, p) && (step.RequestRebuild? || step.RequestCancel?)
    ensures History(steps + [step], Apply(p, step))
  {
    hide IsRebuild, PreambleBuilt, AstBuilt, PreambleInTime, Requests, LatestBuilt, ClosureHistory, PreambleHistory,
      AstHistory, BuiltOnce, RemembersPreambles;
    var q, longer, n := Apply(p, step), steps + [step], |p.closures|;
    RequestsAfter(steps, step);
    PromisesRemain(steps, step, p);
    BuildsRemainUnique(steps, step);
    OldPreamblesRemain(steps, step, p.closures, q.closures);
    forall k | 0 <= k < |q.closures|
      ensures ClosureHistory(longer, k, q.closures[k])
    {
      if k < n {
        HistoryOnward(steps, step, k, p.closures[k], q.closures[k]);
      } else {
        assert Untouched(steps, k);
        NewClosureHistory(steps, step, q.closures[k]);
      }
    }
    forall k | k >= |q.closures|
      ensures Untouched(longer, k)
    {
      assert Untouched(steps, k);
      ReadingsAfter(steps, step, k);
    }
    PendingHistory(longer);
  }

  lemma NewClosureHistory(steps: seq<Step>, step: Step, c: Closure)
    requires Untouched(steps, |Requests(steps)| + 1) && c.phase.Notifying?
    requires step.RequestRebuild? || step.RequestCancel?
    requires c.kind.Rebuild? <==> step.RequestRebuild?
    ensures ClosureHistory(steps + [step], |Requests(steps)| + 1, c)
  {
    hide Requests, PreambleBuilt, AstBuilt, PreambleInTime;
    RequestsAfter(steps, step);
    ReadingsAfter(steps, step, |Requests(steps)| + 1);
  }

  lemma PendingHistory(steps: seq<Step>)
    ensures PreambleHistory(steps, Pending) && AstHistory(steps, Pending)
  {
  }

  /** The steps that neither add a request nor build anything. */
  lemma IdleStepKeepsHistory(steps: seq<Step>, p: Protocol, step: Step)
    requires p.file.Shaped() && History(steps, p) && Enabled(p, step)
    requires !step.RequestRebuild? && !step.RequestCancel? && !step.BuildPreamble? && !step.BuildAst?
    ensures History(steps + [step], Apply(p, step))
  {
    hide IsRebuild, PreambleBuilt, AstBuilt, PreambleInTime, Requests, LatestBuilt, ClosureHistory, PreambleHistory,
      AstHistory, BuiltOnce, RemembersPreambles;
    var q, longer := Apply(p, step), steps + [step];
    RequestsAfter(steps, step);
    PromisesRemain(steps, step, p);
    BuildsRemainUnique(steps, step);
    OldPreamblesRemain(steps, step, p.closures, q.closures);
    forall k | 0 <= k < |q.closures|
      ensures ClosureHistory(longer, k, q.closures[k])
    {
      HistoryOnward(steps, step, k, p.closures[k], q.closures[k]);
    }
    forall k | k >= |q.closures|
      ensures Untouched(longer, k)
    {
      assert Untouched(steps, k);
      ReadingsAfter(steps, step, k);
    }
    if step.StartClosure? || step.Recheck? {
      assert ClosureHistory(steps, step.k, p.closures[step.k]);
      NullsHistory(steps, step, step.k, p.closures[step.k]);
    }
  }

  lemma NullsHistory(steps: seq<Step>, step: Step, k: nat, c: Closure)
    requires ClosureHistory(steps, k, c) && k <= |Requests(steps)|
    requires !step.RequestRebuild? && !step.RequestCancel?
    ensures !c.kind.Rebuild? ==>
              PreambleHistory(steps + [step], Fulfilled(None, k)) && AstHistory(steps + [step], Fulfilled(None, k))
  {
    hide Requests, PreambleBuilt, AstBuilt, PreambleInTime;
    RequestsAfter(steps, step);
    ReadingsAfter(steps, step, k);
  }

  lemma BuildKeepsHistory(steps: seq<Step>, p: Protocol, step: Step)
    requires Inv(p) && History(steps, p) && Enabled(p, step) && (step.BuildPreamble? || step.BuildAst?)
    ensures History(steps + [step], Apply(p, step))
  {
    hide IsRebuild, PreambleBuilt, AstBuilt, PreambleInTime, Requests, LatestBuilt, ClosureHistory, PreambleHistory,
      AstHistory, BuiltOnce, RemembersPreambles, ReportedDiags, NewestAgrees, MutualExclusion, NewestWaits, NoLostWakeup;
    var q, longer := Apply(p, step), steps + [step];
    assert p.closures[step.k].kind.Rebuild? by {
      assert ClosureOk(p, step.k);
    }
    assert ClosureHistory(steps, step.k, p.closures[step.k]);
    RequestsAfter(steps, step);
    PromisesRemain(steps, step, p);
    BuilderHistory(steps, step, p);
    BuildsRemainUnique(steps, step);
    OldPreamblesRemain(steps, step, p.closures, q.closures);
    forall k | 0 <= k < |q.closures|
      ensures ClosureHistory(longer, k, q.closures[k])
    {
      if k != step.k {
        HistoryOnward(steps, step, k, p.closures[k], q.closures[k]);
      }
    }
    forall k | k >= |q.closures|
      ensures Untouched(longer, k)
    {
      assert Untouched(steps, k);
      ReadingsAfter(steps, step, k);
    }
  }

  /** The closure that builds, and the promise it may set. */
  lemma BuilderHistory(steps: seq<Step>, step: Step, p: Protocol)
    requires |p.closures| == |Requests(steps)| + 1 == p.file.rebuildCounter + 1 && p.file.Shaped()
    requires Enabled(p, step) && (step.BuildPreamble? || step.BuildAst?)
    requires ClosureHistory(steps, step.k, p.closures[step.k]) && p.closures[step.k].kind.Rebuild?
    ensures step.BuildPreamble? ==> !PreambleBuilt(steps, step.k)
    ensures step.BuildAst? ==> !AstBuilt(steps, step.k)
    ensures step.BuildPreamble? ==> PreambleHistory(steps + [step], Fulfilled(step.built, step.k))
    ensures step.BuildAst? ==> AstHistory(steps + [step], Fulfilled(step.ast, step.k))
    ensures ClosureHistory(steps + [step], step.k, Apply(p, step).closures[step.k])
  {
    hide Requests, LatestBuilt, PreambleBuilt, AstBuilt, PreambleInTime;
    RequestsAfter(steps, step);
    ReadingsAfter(steps, step, step.k);
    assert step in steps + [step];
    if step.BuildPreamble? {
      assert step == BuildPreamble(step.k, step.built);
    } else {
      assert step == BuildAst(step.k, step.ast);
      var built := p.closures[step.k].phase.preamble;
      assert BuildPreamble(step.k, built) in steps + [step];
      assert DiagnosticsOf(steps + [step], step.k, ReportedDiags(built, step.ast));
    }
  }

  lemma StepKeepsHistory(steps: seq<Step>, p: Protocol, step: Step)
    requires Inv(p) && History(steps, p) && Enabled(p, step)
    ensures History(steps + [step], Apply(p, step))
  {
    if step.RequestRebuild? || step.RequestCancel? {
      RequestKeepsHistory(steps, p, step);
    } else if step.BuildPreamble? || step.BuildAst? {
      BuildKeepsHistory(steps, p, step);
    } else {
      IdleStepKeepsHistory(steps, p, step);
    }
  }

  lemma {:induction false} RunKeepsHistory(before: seq<Step>, p: Protocol, steps: seq<Step>)
    requires Inv(p) && Legal(p, steps) && History(before, p)
    ensures History(before + steps, Run(p, steps))
    decreases |steps|
  {
    hide History, Inv;
    if steps == [] {
      assert before + steps == before;
    } else {
      StepKeepsHistory(before, p, steps[0]);
      StepKeepsInv(p, steps[0]);
      RunKeepsHistory(before + [steps[0]], Apply(p, steps[0]), steps[1..]);
      assert before + [steps[0]] + steps[1..] == before + steps;
    }
  }

  lemma EveryRunHasItsHistory(steps: seq<Step>)
    requires Legal(Initial, steps)
    ensures Inv(Run(Initial, steps)) && History(steps, Run(Initial, steps))
  {
    assert Inv(Initial);
    RunKeepsInv(Initial, steps);
    assert History([], Initial);
    RunKeepsHistory([], Initial, steps);
    assert [] + steps == steps;
  }

  // ---------------------------------------------------------------- results of whole runs

  /** Every future ever handed out holds what the closure that set it built: the preamble or AST of
      a rebuild, null from a cancellation or from the constructor. */
  lemma FuturesHoldWhatWasBuilt(steps: seq<Step>)
    requires Legal(Initial, steps)
    ensures var p := Run(Initial, steps);
      && (forall i :: 0 <= i < |p.file.preambles| && p.file.preambles[i].Fulfilled? ==>
            var future := p.file.preambles[i];
            if IsRebuild(steps, future.setter) then BuildPreamble(future.setter, future.value) in steps
            else future.value == None)
      && (forall i :: 0 <= i < |p.file.asts| && p.file.asts[i].Fulfilled? ==>
            var future := p.file.asts[i];
            if IsRebuild(steps, future.setter) then BuildAst(future.setter, future.value) in steps
            else future.value == None)
      && BuiltOnce(steps)
  {
    hide Inv, ClosureHistory, RemembersPreambles, IsRebuild, Requests, BuiltOnce, LatestBuilt;
    EveryRunHasItsHistory(steps);
    var p := Run(Initial, steps);
    forall i | 0 <= i < |p.file.preambles| && p.file.preambles[i].Fulfilled?
      ensures var future := p.file.preambles[i];
        if IsRebuild(steps, future.setter) then BuildPreamble(future.setter, future.value) in steps
        else future.value == None
    {
      assert PreambleHistory(steps, p.file.preambles[i]);
    }
    forall i | 0 <= i < |p.file.asts| && p.file.asts[i].Fulfilled?
      ensures var future := p.file.asts[i];
        if IsRebuild(steps, future.setter) then BuildAst(future.setter, future.value) in steps
        else future.value == None
    {
      assert AstHistory(steps, p.file.asts[i]);
    }
  }

  /** Once everything has run, the current futures hold what the newest request n asked for: the
      preamble of its one BuildPreamble and the AST of its one BuildAst, or nulls for a cancellation. */
  lemma QuietFuturesHoldTheNewestBuild(steps: seq<Step>)
    requires Legal(Initial, steps) && Quiet(Run(Initial, steps))
    ensures var p, n := Run(Initial, steps), |Requests(steps)|;
      && p.file.Shaped() && p.file.CurrentPreamble().Fulfilled? && p.file.CurrentAst().Fulfilled?
      && (n > 0 && Requests(steps)[n - 1].RequestRebuild? ==>
            && BuildPreamble(n, p.file.CurrentPreamble().value) in steps
            && BuildAst(n, p.file.CurrentAst().value) in steps)
      && (n == 0 || Requests(steps)[n - 1].RequestCancel? ==>
            p.file.CurrentPreamble().value == None && p.file.CurrentAst().value == None)
  {
    hide Inv, Requests, ClosureHistory, RemembersPreambles, BuiltOnce, LatestBuilt;
    QuietFuturesAreReady(steps);
    EveryRunHasItsHistory(steps);
    var p, n := Run(Initial, steps), |Requests(steps)|;
    assert PreambleHistory(steps, p.file.CurrentPreamble()) && AstHistory(steps, p.file.CurrentAst());
    CounterCounts(steps);
  }

  lemma CounterCounts(steps: seq<Step>)
    requires Legal(Initial, steps)
    ensures Run(Initial, steps).file.rebuildCounter == |Requests(steps)|
  {
    hide ClosureHistory, RemembersPreambles, BuiltOnce, LatestBuilt;
    EveryRunHasItsHistory(steps);
  }

  /** getPossiblyStalePreamble returns the preamble of the run's last preamble build, in time or not. */
  lemma StalePreambleIsTheLastBuilt(steps: seq<Step>, i: nat)
    requires Legal(Initial, steps)
    ensures NothingBuiltFrom(steps, 0) ==> Run(Initial, steps).file.latestAvailablePreamble == None
    ensures i < |steps| && steps[i].BuildPreamble? && NothingBuiltFrom(steps, i + 1) ==>
            Run(Initial, steps).file.latestAvailablePreamble == steps[i].built
  {
    hide Inv, ClosureHistory, RemembersPreambles, BuiltOnce;
    EveryRunHasItsHistory(steps);
    LatestIsLast(steps, i);
  }

  predicate NothingBuiltFrom(steps: seq<Step>, i: nat) {
    forall j :: i <= j < |steps| ==> !steps[j].BuildPreamble?
  }

  lemma {:induction false} LatestIsLast(steps: seq<Step>, i: nat)
    ensures NothingBuiltFrom(steps, 0) ==> LatestBuilt(steps) == None
    ensures i < |steps| && steps[i].BuildPreamble? && NothingBuiltFrom(steps, i + 1) ==> LatestBuilt(steps) == steps[i].built
    decreases |steps|
  {
    if steps != [] {
      LatestIsLast(steps[..|steps| - 1], i);
    }
  }

  /** A rebuild is offered the latest preamble built before its request was registered. */
  lemma OldPreambleIsTheLastBuilt(steps: seq<Step>, i: nat)
    requires Legal(Initial, steps) && i < |steps| && steps[i].RequestRebuild?
    ensures var k, p := |Requests(steps[..i])| + 1, Run(Initial, steps);
            k < |p.closures| && p.closures[k].kind == Rebuild(LatestBuilt(steps[..i]))
  {
    hide Inv, ClosureHistory, BuiltOnce, LatestBuilt, Requests;
    EveryRunHasItsHistory(steps);
  }

  /** The closure of a rebuild returns diagnostics exactly if its request was still the newest when
      the preamble was published, and then those of its preamble followed by those of its AST. */
  lemma ResultsAreWhatWasBuilt(steps: seq<Step>, k: nat)
    requires Legal(Initial, steps)
    requires k < |Run(Initial, steps).closures| && Run(Initial, steps).closures[k].phase.Finished?
    ensures var result := Run(Initial, steps).closures[k].phase.result;
      && (result.Diagnostics? <==> PreambleInTime(steps, k))
      && (result.Diagnostics? ==> DiagnosticsOf(steps, k, result.diags))
      && (result.NoDiagnostics? ==> !AstBuilt(steps, k))
  {
    hide Inv, Requests, RemembersPreambles, BuiltOnce, LatestBuilt, PreambleInTime, AstBuilt, DiagnosticsOf;
    EveryRunHasItsHistory(steps);
    assert ClosureHistory(steps, k, Run(Initial, steps).closures[k]);
  }

  // ---------------------------------------------------------------- what the headers promise

  /** Request k was still the newest when its AST was to be published. */
  predicate AstInTime(steps: seq<Step>, k: nat) {
    exists i :: 0 <= i < |steps| && steps[i].BuildAst? && steps[i].k == k && |Requests(steps[..i])| == k
  }

  /** A newer request came in while the AST of request k was being built. */
  predicate SupersededWhileBuildingAst(steps: seq<Step>, k: nat) {
    exists i :: 0 <= i < |steps| && steps[i].BuildAst? && steps[i].k == k && |Requests(steps[..i])| != k
  }

  /** The header wants None whenever a newer request came before the rebuild was finished. The code
      returns what it wants unless the newer request came while the AST was being built. */
  lemma ResultIsAsDocumentedIff(steps: seq<Step>, k: nat)
    requires Legal(Initial, steps)
    requires k < |Run(Initial, steps).closures| && Run(Initial, steps).closures[k].phase.Finished?
    ensures var result := Run(Initial, steps).closures[k].phase.result;
            (result.Diagnostics? <==> AstInTime(steps, k)) <==> !SupersededWhileBuildingAst(steps, k)
  {
    hide Inv, Requests, RemembersPreambles, LatestBuilt, PreambleInTime;
    ResultsAreWhatWasBuilt(steps, k);
    FuturesHoldWhatWasBuilt(steps);
    var result := Run(Initial, steps).closures[k].phase.result;
    if AstInTime(steps, k) {
      var i :| 0 <= i < |steps| && steps[i].BuildAst? && steps[i].k == k && |Requests(steps[..i])| == k;
      assert steps[i] == BuildAst(k, steps[i].ast) && steps[i] in steps;
      forall j | 0 <= j < |steps| && SameBuild(steps[i], steps[j])
        ensures i == j
      {
        assert SameBuild(steps[j], steps[i]);
      }
    }
    if result.Diagnostics? {
      var built, ast :| BuildPreamble(k, built) in steps && BuildAst(k, ast) in steps;
      var i :| 0 <= i < |steps| && steps[i] == BuildAst(k, ast);
      assert steps[i].BuildAst? && steps[i].k == k;
    }
    if SupersededWhileBuildingAst(steps, k) {
      var j :| 0 <= j < |steps| && steps[j].BuildAst? && steps[j].k == k && |Requests(steps[..j])| != k;
      assert steps[j] == BuildAst(k, steps[j].ast) && steps[j] in steps;
    }
  }

  /** The rebuild is admitted and has built its preamble. */
  lemma AdmittedRebuild(command: Command) returns (p1: Protocol, p2: Protocol, p3: Protocol, p4: Protocol)
    ensures Follows(Initial, RequestRebuild(command), p1) && Follows(p1, NotifyRequest(1), p2)
    ensures Follows(p2, StartClosure(1), p3) && Follows(p3, BuildPreamble(1, None), p4)
    ensures p4.file.Shaped() && |p4.closures| == 2 && p4.file.rebuildCounter == 1
    ensures p4.closures[1] == Closure(Rebuild(None), BuildingAst(None))
  {
    p1 := Apply(Initial, RequestRebuild(command));
    p2 := Apply(p1, NotifyRequest(1));
    p3 := Apply(p2, StartClosure(1));
    p4 := Apply(p3, BuildPreamble(1, None));
  }

  /** A newer request comes in, and the rebuild finishes. */
  lemma OvertakenRebuild(p4: Protocol, command: Command, ast: Ast) returns (p5: Protocol, p6: Protocol, p7: Protocol, p8: Protocol)
    requires p4.file.Shaped() && |p4.closures| == 2 && p4.closures[1] == Closure(Rebuild(None), BuildingAst(None))
    ensures Follows(p4, RequestRebuild(command), p5) && Follows(p5, BuildAst(1, Some(ast)), p6)
    ensures Follows(p6, DestroyGuard(1), p7) && Follows(p7, NotifyDeparture(1), p8)
    ensures |p8.closures| == 3 && p8.closures[1].phase == Finished(Diagnostics(ast.diags))
  {
    assert [] + ast.diags == ast.diags;
    p5 := Apply(p4, RequestRebuild(command));
    p6 := Apply(p5, BuildAst(1, Some(ast)));
    p7 := Apply(p6, DestroyGuard(1));
    p8 := Apply(p7, NotifyDeparture(1));
  }

  predicate Follows(p: Protocol, step: Step, q: Protocol) {
    p.file.Shaped() && Enabled(p, step) && q == Apply(p, step)
  }

  /** A rebuild overtaken while it builds its AST still returns its diagnostics. */
  lemma OvertakenRebuildStillReports(command: Command, ast: Ast)
    ensures var steps := [RequestRebuild(command), NotifyRequest(1), StartClosure(1), BuildPreamble(1, None),
                          RequestRebuild(command), BuildAst(1, Some(ast)), DestroyGuard(1), NotifyDeparture(1)];
      && Legal(Initial, steps) && SupersededWhileBuildingAst(steps, 1)
      && |Run(Initial, steps).closures| == 3
      && Run(Initial, steps).closures[1].phase == Finished(Diagnostics(ast.diags))
  {
    hide Requests, Apply, Enabled;
    var steps := [RequestRebuild(command), NotifyRequest(1), StartClosure(1), BuildPreamble(1, None),
                  RequestRebuild(command), BuildAst(1, Some(ast)), DestroyGuard(1), NotifyDeparture(1)];
    var p1, p2, p3, p4 := AdmittedRebuild(command);
    var p5, p6, p7, p8 := OvertakenRebuild(p4, command, ast);
    LastStep(p7, steps[7..], p8);
    OneStep(p6, steps[6..], p7);
    OneStep(p5, steps[5..], p6);
    OneStep(p4, steps[4..], p5);
    OneStep(p3, steps[3..], p4);
    OneStep(p2, steps[2..], p3);
    OneStep(p1, steps[1..], p2);
    OneStep(Initial, steps, p1);
    TwoRequests(steps[..5]);
    assert steps[5].BuildAst?;
  }

  lemma OneStep(p: Protocol, steps: seq<Step>, q: Protocol)
    requires steps != [] && p.file.Shaped() && Enabled(p, steps[0]) && q == Apply(p, steps[0]) && Legal(q, steps[1..])
    ensures Legal(p, steps) && Run(p, steps) == Run(q, steps[1..])
  {
  }

  lemma LastStep(p: Protocol, steps: seq<Step>, q: Protocol)
    requires |steps| == 1 && p.file.Shaped() && Enabled(p, steps[0]) && q == Apply(p, steps[0])
    ensures Legal(p, steps) && Run(p, steps) == q
  {
  }

  lemma TwoRequests(steps: seq<Step>)
    requires |steps| == 5 && steps[0].RequestRebuild? && steps[4].RequestRebuild?
    requires steps[1].NotifyRequest? && steps[2].StartClosure? && steps[3].BuildPreamble?
    ensures |Requests(steps)| == 2
  {
    var r := Requests(steps[..4]);
    assert steps[..4][..3] == steps[..3] && steps[..3][..2] == steps[..2] && steps[..2][..1] == steps[..1];
    assert |Requests(steps[..1])| == 1;
    assert |Requests(steps[..2])| == 1;
    assert |Requests(steps[..3])| == 1;
    assert |r| == 1;
  }
}
