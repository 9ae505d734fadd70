/** Every step of the client and of every worker keeps ServerInv. */
module ServerProofs {
  import opened Options
  import opened CppFiles
  import opened RebuildProtocol
  import opened RebuildSafety
  import opened RebuildProgress
  import opened ServerTables
  import opened ServerProtocol

  // ---------------------------------------------------------------- what a file step does to closures

  predicate Evolves(before: Closure, after: Closure) {
    && before.kind == after.kind
    && (after.phase == before.phase || (before.phase.Asleep? && after.phase.Woken?))
  }

  /** A step about closure k leaves the phases of the others alone, except that sleepers wake. */
  lemma OthersOnlyWake(p: Protocol, step: Step, i: nat)
    requires p.file.Shaped() && Enabled(p, step) && i < |p.closures|
    requires step.RequestRebuild? || step.RequestCancel? || step.k != i
    ensures i < |Apply(p, step).closures| && Evolves(p.closures[i], Apply(p, step).closures[i])
  {
  }

  lemma MovedClosure(p: Protocol, step: Step)
    requires p.file.Shaped() && Enabled(p, step) && !step.RequestRebuild? && !step.RequestCancel?
    ensures |Apply(p, step).closures| == |p.closures|
    ensures Apply(p, step).file.rebuildCounter == p.file.rebuildCounter
    ensures Apply(p, step).closures[step.k].kind == p.closures[step.k].kind
    ensures !Apply(p, step).closures[step.k].phase.Notifying?
    ensures step.NotifyRequest? ==> Apply(p, step).closures[step.k].phase.Deferred?
  {
  }

  /** What was known about a task survives any step that is not about its own closure. */
  lemma TaskSurvives(s: State, t: State, task: Task)
    requires TaskOk(s, task)
    requires task.unit < |t.files| && task.request < |t.files[task.unit].closures|
    requires Evolves(s.files[task.unit].closures[task.request], t.files[task.unit].closures[task.request])
    requires task.ReparseTask? ==> Version(s.drafts, task.file) <= Version(t.drafts, task.file)
    ensures TaskOk(t, task)
    ensures PhaseOf(t, task).Notifying? <==> PhaseOf(s, task).Notifying?
    ensures PhaseOf(t, task).Deferred? <==> PhaseOf(s, task).Deferred?
  {
  }

  lemma OnUnitSurvives(s: State, unit: nat, step: Step, task: Task)
    requires UnitOk(s, unit) && Enabled(s.files[unit], step) && TaskOk(s, task)
    requires step.RequestRebuild? || step.RequestCancel? || task.unit != unit || task.request != step.k
    ensures TaskOk(OnUnit(s, unit, step), task)
    ensures PhaseOf(OnUnit(s, unit, step), task).Notifying? <==> PhaseOf(s, task).Notifying?
    ensures PhaseOf(OnUnit(s, unit, step), task).Deferred? <==> PhaseOf(s, task).Deferred?
  {
    var t := OnUnit(s, unit, step);
    if task.unit == unit {
      OthersOnlyWake(s.files[unit], step, task.request);
    } else {
      assert t.files[task.unit] == s.files[task.unit];
    }
    TaskSurvives(s, t, task);
  }

  // ---------------------------------------------------------------- units

  lemma UnitStepKeepsUnits(s: State, unit: nat, step: Step)
    requires UnitsOk(s) && UnitOk(s, unit) && Enabled(s.files[unit], step)
    ensures UnitsOk(OnUnit(s, unit, step))
  {
    StepKeepsInv(s.files[unit], step);
  }

  lemma CollectionStepKeepsUnits(s: State, step: ServerStep)
    requires UnitsOk(s) && ClientOk(s) && CanStep(s, step)
    requires step.GetOrCreateFile? || step.RemoveIfPresent?
    ensures UnitsOk(Do(s, step))
  {
    var t := Do(s, step);
    assert RebuildProtocol.Inv(Initial);
    assert t.drafts == s.drafts && s.files <= t.files;
    assert forall unit :: 0 <= unit < |t.files| ==> t.files[unit] == if unit < |s.files| then s.files[unit] else Initial;
    assert forall f :: f in t.units ==>
      if f in s.units then t.units[f] == s.units[f] else f == s.client.file && t.units[f] == |s.files|;
  }

  lemma UnitsKept(s: State, step: ServerStep)
    requires UnitsOk(s) && ClientOk(s) && CanStep(s, step)
    ensures UnitsOk(Do(s, step))
  {
    if step.GetOrCreateFile? || step.RemoveIfPresent? {
      CollectionStepKeepsUnits(s, step);
    } else if step.DeferRebuild? || step.DeferCancel? || step.ClientNotify? || step.RunClosure? {
      FileStepKeepsUnits(s, step);
    } else {
      var t := Do(s, step);
      assert t.files == s.files && t.units == s.units;
    }
  }

  lemma FileStepKeepsUnits(s: State, step: ServerStep)
    requires UnitsOk(s) && ClientOk(s) && CanStep(s, step)
    requires step.DeferRebuild? || step.DeferCancel? || step.ClientNotify? || step.RunClosure?
    ensures UnitsOk(Do(s, step))
  {
    var t := Do(s, step);
    var unit, fileStep :=
      if step.DeferRebuild? then s.client.unit else
      if step.DeferCancel? then s.client.unit else
      if step.ClientNotify? then s.client.task.unit else s.workers[step.w].task.unit,
      if step.DeferRebuild? then RequestRebuild(step.command) else
      if step.DeferCancel? then RequestCancel else
      if step.ClientNotify? then NotifyRequest(s.client.task.request) else step.step;
    assert t == OnUnit(s, unit, fileStep).(client := t.client);
    UnitStepKeepsUnits(s, unit, fileStep);
  }

  // ---------------------------------------------------------------- tasks

  lemma RequestKeepsWorkers(s: State, unit: nat, request: Step, worker: Worker)
    requires UnitOk(s, unit) && (request.RequestRebuild? || request.RequestCancel?) && WorkerOk(s, worker)
    ensures WorkerOk(OnUnit(s, unit, request), worker)
  {
    if WorkerTask(worker).Some? {
      OnUnitSurvives(s, unit, request, worker.task);
    }
  }

  lemma RequestKeepsHands(s: State, step: ServerStep)
    requires UnitsOk(s) && HandsOk(s) && CanStep(s, step) && (step.DeferRebuild? || step.DeferCancel?)
    ensures HandsOk(Do(s, step))
  {
    var t, unit := Do(s, step), s.client.unit;
    var request := if step.DeferRebuild? then RequestRebuild(step.command) else RequestCancel;
    var moved := OnUnit(s, unit, request);
    assert t == moved.(client := t.client);
    forall i | 0 <= i < |s.queue|
      ensures TaskOk(t, s.queue[i]) && PhaseOf(t, s.queue[i]).Deferred?
    {
      OnUnitSurvives(s, unit, request, s.queue[i]);
    }
    forall w | 0 <= w < |s.workers|
      ensures WorkerOk(t, s.workers[w])
    {
      RequestKeepsWorkers(s, unit, request, s.workers[w]);
      assert WorkerOk(moved, s.workers[w]);
    }
    NewTaskIsOk(s, step);
  }

  lemma NewTaskIsOk(s: State, step: ServerStep)
    requires UnitsOk(s) && ClientOk(s) && CanStep(s, step) && (step.DeferRebuild? || step.DeferCancel?)
    ensures ClientOk(Do(s, step))
  {
    assert RebuildProtocol.Inv(s.files[s.client.unit]);
  }

  lemma RequestHasAFreshNumber(s: State, step: ServerStep)
    requires UnitsOk(s) && HandsOk(s) && OneHandEach(s)
    requires CanStep(s, step) && (step.DeferRebuild? || step.DeferCancel?)
    ensures OneHandEach(Do(s, step))
  {
    var t, unit := Do(s, step), s.client.unit;
    assert t.queue == s.queue && t.workers == s.workers && ClientTask(s.client).None?;
    assert RebuildProtocol.Inv(s.files[unit]);
    assert t.client.task.unit == unit && t.client.task.request == |s.files[unit].closures|;
    forall w | 0 <= w < |s.workers|
      ensures !Clash(ClientTask(t.client), WorkerTask(s.workers[w]))
    {
      assert WorkerOk(s, s.workers[w]);
    }
    forall i | 0 <= i < |s.queue|
      ensures !Clash(ClientTask(t.client), Some(s.queue[i]))
    {
      assert TaskOk(s, s.queue[i]);
    }
  }

  lemma FileStepKeepsWorker(s: State, unit: nat, step: Step, worker: Worker)
    requires UnitOk(s, unit) && Enabled(s.files[unit], step) && WorkerOk(s, worker)
    requires !step.RequestRebuild? && !step.RequestCancel?
    requires WorkerTask(worker).Some? ==> worker.task.unit != unit || worker.task.request != step.k
    ensures WorkerOk(OnUnit(s, unit, step), worker)
  {
    hide TaskOk, Apply, Enabled;
    MovedClosure(s.files[unit], step);
    if WorkerTask(worker).Some? {
      OnUnitSurvives(s, unit, step, worker.task);
    }
  }

  lemma ClientNotifyKeepsHands(s: State, step: ServerStep)
    requires UnitsOk(s) && HandsOk(s) && OneHandEach(s) && CanStep(s, step) && step.ClientNotify?
    ensures HandsOk(Do(s, step))
  {
    hide Apply, Enabled, UnitsOk;
    var t, task := Do(s, step), s.client.task;
    var notify := NotifyRequest(task.request);
    var moved := OnUnit(s, task.unit, notify);
    assert t == moved.(client := t.client);
    MovedClosure(s.files[task.unit], notify);
    forall i | 0 <= i < |s.queue|
      ensures TaskOk(t, s.queue[i]) && PhaseOf(t, s.queue[i]).Deferred?
    {
      assert !Clash(ClientTask(s.client), Some(s.queue[i]));
      OnUnitSurvives(s, task.unit, notify, s.queue[i]);
    }
    forall w | 0 <= w < |s.workers|
      ensures WorkerOk(t, s.workers[w])
    {
      assert WorkerOk(s, s.workers[w]) && !Clash(ClientTask(s.client), WorkerTask(s.workers[w]));
      FileStepKeepsWorker(s, task.unit, notify, s.workers[w]);
      assert WorkerOk(moved, s.workers[w]);
    }
  }

  lemma RunClosureKeepsHands(s: State, step: ServerStep)
    requires UnitsOk(s) && HandsOk(s) && OneHandEach(s) && CanStep(s, step) && step.RunClosure?
    ensures HandsOk(Do(s, step))
  {
    var t, task := Do(s, step), s.workers[step.w].task;
    assert WorkerOk(s, s.workers[step.w]);
    MovedClosure(s.files[task.unit], step.step);
    forall i | 0 <= i < |s.queue|
      ensures TaskOk(t, s.queue[i]) && PhaseOf(t, s.queue[i]).Deferred?
    {
      assert !Clash(Some(s.queue[i]), WorkerTask(s.workers[step.w]));
      OnUnitSurvives(s, task.unit, step.step, s.queue[i]);
    }
    forall v | 0 <= v < |s.workers|
      ensures WorkerOk(t, s.workers[v])
    {
      assert WorkerOk(s, s.workers[v]);
      if v != step.w {
        assert !Clash(WorkerTask(s.workers[v]), WorkerTask(s.workers[step.w]));
        FileStepKeepsWorker(s, task.unit, step.step, s.workers[v]);
      }
    }
    if ClientTask(s.client).Some? {
      assert !Clash(ClientTask(s.client), WorkerTask(s.workers[step.w]));
      OnUnitSurvives(s, task.unit, step.step, s.client.task);
    }
  }

  lemma NewFilesKeepTasks(s: State, t: State)
    requires s.files <= t.files && forall f :: Version(s.drafts, f) <= Version(t.drafts, f)
    ensures forall task :: TaskOk(s, task) ==> TaskOk(t, task) && PhaseOf(t, task) == PhaseOf(s, task)
    ensures forall worker :: WorkerOk(s, worker) ==> WorkerOk(t, worker)
  {
  }

  lemma DraftStepKeepsHands(s: State, step: ServerStep)
    requires UnitsOk(s) && HandsOk(s) && CanStep(s, step)
    requires step.UpdateDraft? || step.FetchDraft? || step.RemoveDraft?
    ensures HandsOk(Do(s, step))
  {
    hide TaskOk, WorkerOk, UnitsOk, PhaseOf;
    var t := Do(s, step);
    assert t.files == s.files && t.workers == s.workers && t.queue == s.queue;
    NewFilesKeepTasks(s, t);
  }

  lemma CollectionStepKeepsHands(s: State, step: ServerStep)
    requires UnitsOk(s) && HandsOk(s) && CanStep(s, step)
    requires step.GetOrCreateFile? || step.RemoveIfPresent?
    ensures HandsOk(Do(s, step))
  {
    hide TaskOk, WorkerOk, PhaseOf;
    var t := Do(s, step);
    assert t.drafts == s.drafts && t.workers == s.workers && t.queue == s.queue && s.files <= t.files;
    NewFilesKeepTasks(s, t);
  }

  /** HandsOk looks at drafts, units, files and client only through the tasks it is about. */
  lemma MoveKeepsHands(s: State, t: State, w: nat)
    requires HandsOk(s) && w < |s.workers|
    requires t.drafts == s.drafts && t.files == s.files && t.client == s.client && t.units == s.units
    requires |t.workers| == |s.workers| && forall v :: 0 <= v < |s.workers| && v != w ==> t.workers[v] == s.workers[v]
    requires WorkerOk(s, t.workers[w]) && forall i :: 0 <= i < |t.queue| ==> t.queue[i] in s.queue
    ensures HandsOk(t)
  {
    forall v | 0 <= v < |s.workers|
      ensures WorkerOk(t, t.workers[v])
    {
      assert v != w ==> WorkerOk(s, s.workers[v]);
    }
  }

  lemma WorkerMoveIsOk(s: State, step: ServerStep)
    requires HandsOk(s) && CanStep(s, step)
    requires step.Take? || step.CheckVersion? || step.Return? || step.Publish?
    ensures WorkerOk(s, Do(s, step).workers[step.w])
  {
    assert WorkerOk(s, s.workers[step.w]);
    if step.Take? {
      assert TaskOk(s, s.queue[0]) && PhaseOf(s, s.queue[0]).Deferred?;
    }
  }

  lemma WorkerMoveKeepsHands(s: State, step: ServerStep)
    requires HandsOk(s) && CanStep(s, step)
    requires step.Take? || step.CheckVersion? || step.Return? || step.Publish?
    ensures HandsOk(Do(s, step))
  {
    var t := Do(s, step);
    WorkerMoveIsOk(s, step);
    assert t == s.(queue := t.queue, workers := t.workers, reported := t.reported, published := t.published);
    MoveKeepsHands(s, t, step.w);
  }

  lemma HandsKept(s: State, step: ServerStep)
    requires UnitsOk(s) && HandsOk(s) && OneHandEach(s) && CanStep(s, step)
    ensures HandsOk(Do(s, step))
  {
    match step
    case UpdateDraft(_, _) => DraftStepKeepsHands(s, step);
    case FetchDraft(_) => DraftStepKeepsHands(s, step);
    case RemoveDraft(_) => DraftStepKeepsHands(s, step);
    case GetOrCreateFile => CollectionStepKeepsHands(s, step);
    case RemoveIfPresent => CollectionStepKeepsHands(s, step);
    case DeferRebuild(_) => RequestKeepsHands(s, step);
    case DeferCancel => RequestKeepsHands(s, step);
    case ClientNotify => ClientNotifyKeepsHands(s, step);
    case AddToFront =>
    case Take(_) => WorkerMoveKeepsHands(s, step);
    case CheckVersion(_) => WorkerMoveKeepsHands(s, step);
    case RunClosure(_, _) => RunClosureKeepsHands(s, step);
    case Return(_) => WorkerMoveKeepsHands(s, step);
    case Publish(_) => WorkerMoveKeepsHands(s, step);
  }

  lemma PushKeepsOneHand(task: Task, queue: seq<Task>, workers: seq<Worker>)
    requires Unshared(Some(task), queue, workers)
    ensures Unshared(None, [task] + queue, workers)
  {
    var pushed := [task] + queue;
    assert pushed[0] == task && forall i :: 0 < i < |pushed| ==> pushed[i] == queue[i - 1];
  }

  /** A closure changes hands but is never copied: no run executes one twice. */
  lemma OneHandEachKept(s: State, step: ServerStep)
    requires UnitsOk(s) && HandsOk(s) && OneHandEach(s) && CanStep(s, step)
    ensures OneHandEach(Do(s, step))
  {
    var t := Do(s, step);
    if step.DeferRebuild? || step.DeferCancel? {
      RequestHasAFreshNumber(s, step);
    } else if step.AddToFront? {
      PushKeepsOneHand(s.client.task, s.queue, s.workers);
    } else if step.Take? || step.CheckVersion? || step.Return? || step.Publish? {
      WorkerMoveKeepsOneHand(s, step);
    } else {
      assert t.queue == s.queue && t.workers == s.workers;
      assert ClientTask(t.client) == ClientTask(s.client);
    }
  }

  lemma WorkerMoveKeepsOneHand(s: State, step: ServerStep)
    requires OneHandEach(s) && CanStep(s, step)
    requires step.Take? || step.CheckVersion? || step.Return? || step.Publish?
    ensures OneHandEach(Do(s, step))
  {
    var t, w := Do(s, step), step.w;
    assert t.client == s.client && |t.workers| == |s.workers|;
    assert forall v :: 0 <= v < |s.workers| && v != w ==> t.workers[v] == s.workers[v];
    if step.Take? {
      assert t.queue == s.queue[1..] && WorkerTask(t.workers[w]) == Some(s.queue[0]);
      assert forall i :: 0 <= i < |t.queue| ==> t.queue[i] == s.queue[i + 1];
    } else {
      assert t.queue == s.queue;
      assert WorkerTask(t.workers[w]).None? || WorkerTask(t.workers[w]) == WorkerTask(s.workers[w]);
    }
  }

  // ---------------------------------------------------------------- closures under way

  lemma StillInHand(s: State, w: nat, worker: Worker, unit: nat, k: nat)
    requires w < |s.workers| && InHand(s, unit, k)
    requires s.workers[w].Running? ==> s.workers[w].task.unit != unit || s.workers[w].task.request != k
    ensures InHand(SetWorker(s, w, worker), unit, k)
  {
    if !(s.client.MustNotify? && s.client.task.unit == unit && s.client.task.request == k) {
      var v :| 0 <= v < |s.workers| && s.workers[v].Running? &&
               s.workers[v].task.unit == unit && s.workers[v].task.request == k;
      assert SetWorker(s, w, worker).workers[v] == s.workers[v];
    }
  }

  lemma WorkerMoveKeepsOrphans(s: State, step: ServerStep)
    requires NoOrphans(s) && CanStep(s, step)
    requires step.Take? || step.CheckVersion? || step.Return? || step.Publish?
    ensures NoOrphans(Do(s, step))
  {
    var t := Do(s, step);
    assert t.files == s.files && t.workers == s.workers[step.w := t.workers[step.w]];
    forall unit, k | 0 <= unit < |s.files| && 0 <= k < |s.files[unit].closures| &&
      !s.files[unit].closures[k].phase.Deferred? && !s.files[unit].closures[k].phase.Finished?
      ensures InHand(t, unit, k)
    {
      assert InHand(s, unit, k);
      StillInHand(s, step.w, t.workers[step.w], unit, k);
      assert InHand(SetWorker(s, step.w, t.workers[step.w]), unit, k);
    }
  }

  lemma RunClosureKeepsOrphans(s: State, step: ServerStep)
    requires NoOrphans(s) && CanStep(s, step) && step.RunClosure?
    ensures NoOrphans(Do(s, step))
  {
    var t, task := Do(s, step), s.workers[step.w].task;
    assert t.workers == s.workers && t.client == s.client;
    forall unit, k | 0 <= unit < |t.files| && 0 <= k < |t.files[unit].closures|
      ensures t.files[unit].closures[k].phase.Deferred? || t.files[unit].closures[k].phase.Finished? || InHand(t, unit, k)
    {
      MovedClosure(s.files[task.unit], step.step);
      assert InHand(s, unit, k) ==> InHand(t, unit, k);
      if unit == task.unit && k == task.request {
        assert InHand(s, unit, k);
      } else if unit == task.unit {
        OthersOnlyWake(s.files[unit], step.step, k);
      } else {
        assert t.files[unit] == s.files[unit];
      }
    }
  }

  lemma ClientFileStepKeepsOrphans(s: State, step: ServerStep)
    requires UnitsOk(s) && NoOrphans(s) && CanStep(s, step)
    requires step.DeferRebuild? || step.DeferCancel? || step.ClientNotify?
    ensures NoOrphans(Do(s, step))
  {
    var t := Do(s, step);
    assert t.workers == s.workers;
    forall unit, k | 0 <= unit < |t.files| && 0 <= k < |t.files[unit].closures|
      ensures t.files[unit].closures[k].phase.Deferred? || t.files[unit].closures[k].phase.Finished? || InHand(t, unit, k)
    {
      assert RebuildProtocol.Inv(s.files[unit]);
      if k < |s.files[unit].closures| && InHand(s, unit, k) && !InHand(t, unit, k) {
        assert step.ClientNotify? && s.client.task.unit == unit && s.client.task.request == k;
      }
    }
  }

  lemma OrphansKept(s: State, step: ServerStep)
    requires UnitsOk(s) && HandsOk(s) && NoOrphans(s) && CanStep(s, step)
    ensures NoOrphans(Do(s, step))
  {
    if step.Take? || step.CheckVersion? || step.Return? || step.Publish? {
      WorkerMoveKeepsOrphans(s, step);
    } else if step.RunClosure? {
      RunClosureKeepsOrphans(s, step);
    } else if step.DeferRebuild? || step.DeferCancel? || step.ClientNotify? {
      ClientFileStepKeepsOrphans(s, step);
    } else {
      var t := Do(s, step);
      assert t.workers == s.workers && s.files <= t.files && !s.client.MustNotify?;
      assert forall unit, k :: InHand(s, unit, k) ==> InHand(t, unit, k);
    }
  }

  // ---------------------------------------------------------------- nothing is forgotten

  lemma StillHeld(s: State, t: State, task: Task)
    requires Held(s, task)
    requires ClientTask(s.client) == Some(task) ==> Held(t, task)
    requires forall x :: x in s.queue ==> x in t.queue || Held(t, x)
    requires |t.workers| == |s.workers|
    requires forall w | 0 <= w < |s.workers| && WorkerTask(s.workers[w]) == Some(task) ::
               WorkerTask(t.workers[w]) == Some(task)
    ensures Held(t, task)
  {
    if ClientTask(s.client) != Some(task) && task !in s.queue {
      var w :| 0 <= w < |s.workers| && WorkerTask(s.workers[w]) == Some(task);
      assert WorkerTask(t.workers[w]) == Some(task);
    }
  }

  lemma StillBeingPublished(s: State, t: State, f: File)
    requires BeingPublished(s, f) && SameNewest(s, t, f)
    requires |t.workers| == |s.workers|
    requires forall w | 0 <= w < |s.workers| && s.workers[w].Publishing? && OfNewest(s, f, s.workers[w].publication) ::
               t.workers[w] == s.workers[w]
    ensures BeingPublished(t, f)
  {
    var w :| 0 <= w < |s.workers| && s.workers[w].Publishing? && OfNewest(s, f, s.workers[w].publication);
    assert t.workers[w] == s.workers[w];
  }

  /** What is current and newest for f is the same in both states. */
  predicate SameNewest(s: State, t: State, f: File) {
    && Version(t.drafts, f) == Version(s.drafts, f)
    && f in s.units && f in t.units && t.units[f] == s.units[f] < |s.files| && t.units[f] < |t.files|
    && Newest(t.files[t.units[f]]) == Newest(s.files[s.units[f]])
  }

  lemma StillPublished(s: State, t: State, f: File)
    requires NewestPublished(s, f) && SameNewest(s, t, f) && s.published <= t.published
    requires Reported(t.reported, f) == Reported(s.reported, f)
    ensures NewestPublished(t, f)
  {
    var i :| 0 <= i < |s.published| && OfNewest(s, f, s.published[i]);
    assert OfNewest(t, f, t.published[i]);
  }

  lemma DraftStepForgetsNothing(s: State, step: ServerStep)
    requires UnitsOk(s) && HandsOk(s) && NothingForgotten(s) && CanStep(s, step)
    requires step.UpdateDraft? || step.FetchDraft? || step.RemoveDraft?
    ensures NothingForgotten(Do(s, step))
  {
    var t := Do(s, step);
    assert t == s.(drafts := t.drafts, client := t.client);
    forall f | Open(t.drafts, f) && !Updating(t, f)
      ensures OpenFilePursued(t, f)
    {
      assert Open(s.drafts, f) && !Updating(s, f);
      PursuitSurvives(s, t, f);
    }
    forall unit | 0 <= unit < |t.files| && unit !in t.units.Values && t.client != Detached(unit)
      ensures ClosedUnitPursued(t, unit)
    {
      ClosedPursuitSurvives(s, t, unit);
    }
  }

  lemma CollectionStepForgetsNothing(s: State, step: ServerStep)
    requires UnitsOk(s) && HandsOk(s) && NothingForgotten(s) && CanStep(s, step)
    requires step.GetOrCreateFile? || step.RemoveIfPresent?
    ensures NothingForgotten(Do(s, step))
  {
    var t := Do(s, step);
    assert t == s.(units := t.units, files := t.files, client := t.client) && s.files <= t.files;
    forall f | Open(t.drafts, f) && !Updating(t, f)
      ensures OpenFilePursued(t, f)
    {
      assert Open(s.drafts, f) && !Updating(s, f) && f in s.units;
      PursuitSurvives(s, t, f);
    }
    forall unit | 0 <= unit < |t.files| && unit !in t.units.Values && t.client != Detached(unit)
      ensures ClosedUnitPursued(t, unit)
    {
      if unit < |s.files| {
        DetachedUnitsWereDetached(s, step, unit);
        ClosedPursuitSurvives(s, t, unit);
      }
    }
  }

  lemma DetachedUnitsWereDetached(s: State, step: ServerStep, unit: nat)
    requires CanStep(s, step) && (step.GetOrCreateFile? || step.RemoveIfPresent?)
    requires unit !in Do(s, step).units.Values && Do(s, step).client != Detached(unit)
    ensures unit !in s.units.Values
  {
    var t := Do(s, step);
    assert forall f :: f in s.units && f !in t.units ==> t.client == Detached(s.units[f]);
    assert forall f :: f in s.units && f in t.units ==> t.units[f] == s.units[f];
  }

  lemma HandoverForgetsNothing(s: State, step: ServerStep)
    requires UnitsOk(s) && HandsOk(s) && NothingForgotten(s) && CanStep(s, step)
    requires step.ClientNotify? || step.AddToFront?
    ensures NothingForgotten(Do(s, step))
  {
    var t := Do(s, step);
    assert t == s.(queue := t.queue, files := t.files, client := t.client) && Held(t, s.client.task);
    assert forall x :: x in s.queue ==> x in t.queue;
    assert |t.files| == |s.files|;
    forall unit | 0 <= unit < |s.files|
      ensures Newest(t.files[unit]) == Newest(s.files[unit])
      ensures NewestFinished(s, unit) ==> NewestFinished(t, unit)
    {
      if step.ClientNotify? && unit == s.client.task.unit {
        var notify := NotifyRequest(s.client.task.request);
        MovedClosure(s.files[unit], notify);
        if NewestFinished(s, unit) {
          OthersOnlyWake(s.files[unit], notify, Newest(s.files[unit]));
        }
      }
    }
    forall f | Open(t.drafts, f) && !Updating(t, f)
      ensures OpenFilePursued(t, f)
    {
      assert Open(s.drafts, f) && !Updating(s, f);
      PursuitSurvives(s, t, f);
    }
    forall unit | 0 <= unit < |t.files| && unit !in t.units.Values && t.client != Detached(unit)
      ensures ClosedUnitPursued(t, unit)
    {
      ClosedPursuitSurvives(s, t, unit);
    }
  }

  lemma PursuitSurvives(s: State, t: State, f: File)
    requires OpenFilePursued(s, f) && f in t.units && t.units[f] == s.units[f] < |t.files|
    requires SameNewest(s, t, f)
    requires t.reported == s.reported && t.published == s.published && t.workers == s.workers
    requires NewestFinished(s, s.units[f]) ==> NewestFinished(t, t.units[f])
    requires forall x :: x in s.queue ==> x in t.queue
    requires ClientTask(s.client).Some? ==> Held(t, s.client.task)
    ensures OpenFilePursued(t, f)
  {
    var task := ReparseTask(f, Version(s.drafts, f), s.units[f], Newest(s.files[s.units[f]]));
    if Held(s, task) {
      StillHeld(s, t, task);
    } else if BeingPublished(s, f) {
      StillBeingPublished(s, t, f);
    } else {
      StillPublished(s, t, f);
    }
  }

  lemma ClosedPursuitSurvives(s: State, t: State, unit: nat)
    requires unit < |s.files| && unit < |t.files| && ClosedUnitPursued(s, unit)
    requires t.workers == s.workers && Newest(t.files[unit]) == Newest(s.files[unit])
    requires NewestFinished(s, unit) ==> NewestFinished(t, unit)
    requires forall x :: x in s.queue ==> x in t.queue
    requires ClientTask(s.client).Some? ==> Held(t, s.client.task)
    ensures ClosedUnitPursued(t, unit)
  {
    if !NewestFinished(s, unit) {
      StillHeld(s, t, CancelTask(unit, Newest(s.files[unit])));
    }
  }

  // ---------------------------------------------------------------- requests and workers forget nothing

  lemma RequestForgetsNothing(s: State, step: ServerStep)
    requires UnitsOk(s) && HandsOk(s) && NothingForgotten(s) && CanStep(s, step)
      && (step.DeferRebuild? || step.DeferCancel?)
    ensures NothingForgotten(Do(s, step))
  {
    var t, own := Do(s, step), s.client.unit;
    assert t == s.(files := t.files, client := t.client) && ClientTask(s.client).None?;
    assert forall unit :: 0 <= unit < |s.files| && unit != own ==> t.files[unit] == s.files[unit];
    forall f | Open(t.drafts, f) && !Updating(t, f)
      ensures OpenFilePursued(t, f)
    {
      if step.DeferRebuild? && f == s.client.file {
        assert ClientTask(t.client) == Some(ReparseTask(f, Version(t.drafts, f), own, Newest(t.files[own])));
      } else {
        assert Open(s.drafts, f) && !Updating(s, f) && f in s.units && s.units[f] != own;
        PursuitSurvives(s, t, f);
      }
    }
    forall unit | 0 <= unit < |t.files| && unit !in t.units.Values && t.client != Detached(unit)
      ensures ClosedUnitPursued(t, unit)
    {
      if unit != own {
        ClosedPursuitSurvives(s, t, unit);
      } else {
        assert ClientTask(t.client) == Some(CancelTask(own, Newest(t.files[own])));
      }
    }
  }

  lemma RunClosureForgetsNothing(s: State, step: ServerStep)
    requires UnitsOk(s) && HandsOk(s) && NothingForgotten(s) && CanStep(s, step) && step.RunClosure?
    ensures NothingForgotten(Do(s, step))
  {
    var t, task := Do(s, step), s.workers[step.w].task;
    assert t == s.(files := t.files) && |t.files| == |s.files|;
    forall unit | 0 <= unit < |s.files|
      ensures Newest(t.files[unit]) == Newest(s.files[unit])
      ensures NewestFinished(s, unit) ==> NewestFinished(t, unit)
    {
      if unit == task.unit {
        MovedClosure(s.files[unit], step.step);
        if NewestFinished(s, unit) && Newest(s.files[unit]) != task.request {
          OthersOnlyWake(s.files[unit], step.step, Newest(s.files[unit]));
        }
      }
    }
    forall f | Open(t.drafts, f) && !Updating(t, f)
      ensures OpenFilePursued(t, f)
    {
      assert OpenFilePursued(s, f);
      PursuitSurvives(s, t, f);
    }
    forall unit | 0 <= unit < |t.files| && unit !in t.units.Values && t.client != Detached(unit)
      ensures ClosedUnitPursued(t, unit)
    {
      ClosedPursuitSurvives(s, t, unit);
    }
  }

  lemma TakeForgetsNothing(s: State, step: ServerStep)
    requires NothingForgotten(s) && CanStep(s, step) && step.Take?
    ensures NothingForgotten(Do(s, step))
  {
    var t := Do(s, step);
    assert t == s.(queue := s.queue[1..], workers := s.workers[step.w := t.workers[step.w]]);
    assert WorkerTask(t.workers[step.w]) == Some(s.queue[0]);
    forall x | x in s.queue
      ensures x in t.queue || Held(t, x)
    {
      assert s.queue == [s.queue[0]] + s.queue[1..];
    }
    WorkerStepForgetsNothing(s, t, step.w);
  }

  /** A worker's own move forgets nothing if it keeps its task, or the task is not the newest of a
      file whose pursuit counts, or the newest was finished and is on its way to publication. */
  lemma WorkerStepForgetsNothing(s: State, t: State, w: nat)
    requires NothingForgotten(s) && w < |s.workers|
    requires t == s.(queue := t.queue, workers := t.workers, reported := t.reported, published := t.published)
    requires |t.workers| == |s.workers| && forall v :: 0 <= v < |s.workers| && v != w ==> t.workers[v] == s.workers[v]
    requires forall x :: x in s.queue ==> x in t.queue || Held(t, x)
    requires s.published <= t.published
    requires forall f :: Reported(s.reported, f) == Version(s.drafts, f) ==> Reported(t.reported, f) == Version(s.drafts, f)
    requires s.workers[w].Publishing? ==>
               var p := s.workers[w].publication;
               p.version == Version(s.drafts, p.file) ==>
                 Reported(t.reported, p.file) == p.version && t.published == s.published + [p]
    requires WorkerTask(s.workers[w]).Some? && WorkerTask(t.workers[w]) != WorkerTask(s.workers[w]) ==>
               Discharged(s, t, s.workers[w].task, w)
    ensures NothingForgotten(t)
  {
    forall f | Open(t.drafts, f) && !Updating(t, f)
      ensures OpenFilePursued(t, f)
    {
      assert OpenFilePursued(s, f);
      var unit := s.units[f];
      var task := ReparseTask(f, Version(s.drafts, f), unit, Newest(s.files[unit]));
      if Held(s, task) {
        if WorkerTask(s.workers[w]) != Some(task) || WorkerTask(t.workers[w]) == Some(task) {
          StillHeld(s, t, task);
        }
      } else if NewestPublished(s, f) {
        StillPublished(s, t, f);
      } else {
        PublishingGoesOn(s, t, w, f);
      }
    }
    forall unit | 0 <= unit < |t.files| && unit !in t.units.Values && t.client != Detached(unit)
      ensures ClosedUnitPursued(t, unit)
    {
      assert ClosedUnitPursued(s, unit);
      var task := CancelTask(unit, Newest(s.files[unit]));
      if Held(s, task) && (WorkerTask(s.workers[w]) != Some(task) || WorkerTask(t.workers[w]) == Some(task)) {
        StillHeld(s, t, task);
      }
    }
  }

  lemma PublishingGoesOn(s: State, t: State, w: nat, f: File)
    requires BeingPublished(s, f) && w < |s.workers| && SameNewest(s, t, f)
    requires |t.workers| == |s.workers| && forall v :: 0 <= v < |s.workers| && v != w ==> t.workers[v] == s.workers[v]
    requires s.workers[w].Publishing? ==>
               var p := s.workers[w].publication;
               p.version == Version(s.drafts, p.file) ==>
                 Reported(t.reported, p.file) == p.version && t.published == s.published + [p]
    ensures BeingPublished(t, f) || NewestPublished(t, f)
  {
    var v :| 0 <= v < |s.workers| && s.workers[v].Publishing? && OfNewest(s, f, s.workers[v].publication);
    if v != w {
      assert t.workers[v] == s.workers[v];
    } else {
      assert OfNewest(t, f, t.published[|s.published|]);
    }
  }

  /** Worker w may let go of `task`: nothing that must be pursued depends on it any more. */
  ghost predicate Discharged(s: State, t: State, task: Task, w: nat)
    requires w < |t.workers|
  {
    && (task.ReparseTask? && Open(s.drafts, task.file) && !Updating(s, task.file) &&
        task.file in s.units && task.unit == s.units[task.file] < |s.files| &&
        task.version == Version(s.drafts, task.file) && task.request == Newest(s.files[task.unit]) ==>
          NewestFinished(s, task.unit) && t.workers[w].Publishing? && OfNewest(s, task.file, t.workers[w].publication))
    && (task.CancelTask? && task.unit < |s.files| && task.request == Newest(s.files[task.unit]) ==>
          NewestFinished(s, task.unit))
  }

  lemma CheckForgetsNothing(s: State, step: ServerStep)
    requires NothingForgotten(s) && CanStep(s, step) && step.CheckVersion?
    ensures NothingForgotten(Do(s, step))
  {
    WorkerStepForgetsNothing(s, Do(s, step), step.w);
  }

  lemma ReturnForgetsNothing(s: State, step: ServerStep)
    requires UnitsOk(s) && HandsOk(s) && NothingForgotten(s) && CanStep(s, step) && step.Return?
    ensures NothingForgotten(Do(s, step))
  {
    var task := s.workers[step.w].task;
    assert WorkerOk(s, s.workers[step.w]);
    assert ClosureOk(s.files[task.unit], task.request);
    WorkerStepForgetsNothing(s, Do(s, step), step.w);
  }

  lemma PublishForgetsNothing(s: State, step: ServerStep)
    requires HandsOk(s) && NothingForgotten(s) && ReportsOk(s) && CanStep(s, step) && step.Publish?
    ensures NothingForgotten(Do(s, step))
  {
    var p := s.workers[step.w].publication;
    assert WorkerOk(s, s.workers[step.w]);
    assert Reported(s.reported, p.file) <= Version(s.drafts, p.file);
    WorkerStepForgetsNothing(s, Do(s, step), step.w);
  }

  lemma ForgetsNothing(s: State, step: ServerStep)
    requires ServerInv(s) && CanStep(s, step)
    ensures NothingForgotten(Do(s, step))
  {
    match step
    case UpdateDraft(_, _) => DraftStepForgetsNothing(s, step);
    case FetchDraft(_) => DraftStepForgetsNothing(s, step);
    case RemoveDraft(_) => DraftStepForgetsNothing(s, step);
    case GetOrCreateFile => CollectionStepForgetsNothing(s, step);
    case RemoveIfPresent => CollectionStepForgetsNothing(s, step);
    case DeferRebuild(_) => RequestForgetsNothing(s, step);
    case DeferCancel => RequestForgetsNothing(s, step);
    case ClientNotify => HandoverForgetsNothing(s, step);
    case AddToFront => HandoverForgetsNothing(s, step);
    case Take(_) => TakeForgetsNothing(s, step);
    case CheckVersion(_) => CheckForgetsNothing(s, step);
    case RunClosure(_, _) => RunClosureForgetsNothing(s, step);
    case Return(_) => ReturnForgetsNothing(s, step);
    case Publish(_) => PublishForgetsNothing(s, step);
  }

  // ---------------------------------------------------------------- all together

  lemma AnnouncementKeepsReports(drafts: Drafts, reported: map<File, nat>, published: seq<Publication>, p: Publication)
    requires ReportsAgree(drafts, reported, published) && p.version <= Version(drafts, p.file)
    ensures ReportsAgree(drafts, Recorded(reported, p), Announced(published, reported, p))
  {
    var after, more := Recorded(reported, p), Announced(published, reported, p);
    if !Outdated(reported, p) {
      assert more == published + [p] && more[..|published|] == published;
      assert forall f :: Reported(after, f) == if f == p.file then p.version else Reported(reported, f);
    }
  }

  lemma PublishKeepsReports(s: State, step: ServerStep)
    requires HandsOk(s) && ReportsOk(s) && CanStep(s, step) && step.Publish?
    ensures ReportsOk(Do(s, step))
  {
    hide ReportsAgree, Recorded, Announced, TaskOk, PhaseOf;
    assert WorkerOk(s, s.workers[step.w]);
    AnnouncementKeepsReports(s.drafts, s.reported, s.published, s.workers[step.w].publication);
  }

  lemma ReportsKept(s: State, step: ServerStep)
    requires HandsOk(s) && ReportsOk(s) && CanStep(s, step)
    ensures ReportsOk(Do(s, step))
  {
    if step.Publish? {
      PublishKeepsReports(s, step);
    }
  }

  lemma ServerStepKeepsInv(s: State, step: ServerStep)
    requires ServerInv(s) && CanStep(s, step)
    ensures ServerInv(Do(s, step))
  {
    UnitsKept(s, step);
    HandsKept(s, step);
    OneHandEachKept(s, step);
    OrphansKept(s, step);
    ForgetsNothing(s, step);
    ReportsKept(s, step);
  }
}
