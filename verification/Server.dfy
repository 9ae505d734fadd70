/** One client thread, any number of workers and any number of CppFiles: adding, removing and
    reparsing documents, with one step per lock region and the CppFile protocol inside. */
module ServerProtocol {
  import opened Options
  import opened CppFiles
  import opened RebuildProtocol
  import opened ServerTables

  /** A scheduled closure. `unit` numbers the CppFile it refers to. */
  datatype Task =
    | ReparseTask(file: File, version: nat, unit: nat, request: nat)
    | CancelTask(unit: nat, request: nat)

  datatype Worker =
    | IdleWorker
    | Checking(task: Task)
    | Running(task: Task)
    | Publishing(publication: Publication)

  /** Where the client thread is inside addDocument, forceReparse or removeDocument. */
  datatype Client =
    | IdleClient
    | Drafted(file: File, version: nat)
    | Resourced(file: File, version: nat, unit: nat)
    | DraftRemoved(file: File)
    | Detached(unit: nat)
    | MustNotify(task: Task)
    | MustPush(task: Task)

  datatype State = State(
    drafts: Drafts,
    units: map<File, nat>,     // the CppFileCollection
    files: seq<Protocol>,      // every CppFile ever created, with its closures
    queue: seq<Task>,
    workers: seq<Worker>,
    client: Client,
    reported: map<File, nat>,
    published: seq<Publication>)

  datatype ServerStep =
    | UpdateDraft(file: File, contents: string)
    | FetchDraft(file: File)
    | RemoveDraft(file: File)
    | GetOrCreateFile
    | DeferRebuild(command: Command)
    | RemoveIfPresent
    | DeferCancel
    | ClientNotify
    | AddToFront
    | Take(w: nat)
    | CheckVersion(w: nat)
    | RunClosure(w: nat, step: Step)
    | Return(w: nat)
    | Publish(w: nat)

  function Start(workers: nat): State {
    State(map[], map[], [], [], seq(workers, _ => IdleWorker), IdleClient, map[], [])
  }

  /** The steps the closure numbered k takes once a worker has called it. */
  predicate OfClosure(step: Step, k: nat) {
    && (step.StartClosure? || step.SpuriousWake? || step.Recheck? || step.BuildPreamble? ||
        step.BuildAst? || step.DestroyGuard? || step.NotifyDeparture?)
    && step.k == k
  }

  predicate UnitOk(s: State, unit: nat) {
    unit < |s.files| && s.files[unit].file.Shaped()
  }

  predicate CanStep(s: State, step: ServerStep) {
    match step
    case UpdateDraft(_, _) => s.client.IdleClient?
    case FetchDraft(file) => s.client.IdleClient? && Open(s.drafts, file)   // asserted by forceReparse
    case RemoveDraft(_) => s.client.IdleClient?
    case GetOrCreateFile => s.client.Drafted?
    case DeferRebuild(_) => s.client.Resourced? && UnitOk(s, s.client.unit)
    case RemoveIfPresent => s.client.DraftRemoved?
    case DeferCancel => s.client.Detached? && UnitOk(s, s.client.unit)
    case ClientNotify =>
      && s.client.MustNotify? && UnitOk(s, s.client.task.unit)
      && Enabled(s.files[s.client.task.unit], NotifyRequest(s.client.task.request))
    case AddToFront => s.client.MustPush?
    case Take(w) => w < |s.workers| && s.workers[w].IdleWorker? && s.queue != []
    case CheckVersion(w) => w < |s.workers| && s.workers[w].Checking? && s.workers[w].task.ReparseTask?
    case RunClosure(w, fileStep) =>
      && w < |s.workers| && s.workers[w].Running? && UnitOk(s, s.workers[w].task.unit)
      && OfClosure(fileStep, s.workers[w].task.request)
      && Enabled(s.files[s.workers[w].task.unit], fileStep)
    case Return(w) =>
      && w < |s.workers| && s.workers[w].Running? && UnitOk(s, s.workers[w].task.unit)
      && s.workers[w].task.request < |s.files[s.workers[w].task.unit].closures|
      && s.files[s.workers[w].task.unit].closures[s.workers[w].task.request].phase.Finished?
    case Publish(w) => w < |s.workers| && s.workers[w].Publishing?
  }

  function OnUnit(s: State, unit: nat, step: Step): State
    requires UnitOk(s, unit) && Enabled(s.files[unit], step)
  {
    s.(files := s.files[unit := RebuildProtocol.Apply(s.files[unit], step)])
  }

  function SetWorker(s: State, w: nat, worker: Worker): State
    requires w < |s.workers|
  {
    s.(workers := s.workers[w := worker])
  }

  /** What the scheduled lambda does when its deferred computation has returned. */
  function AfterRun(task: Task, result: Outcome): Worker {
    if task.ReparseTask? && result.Diagnostics? then
      Publishing(Publication(task.file, task.version, result.diags, task.unit, task.request))
    else IdleWorker
  }

  function Do(s: State, step: ServerStep): State
    requires CanStep(s, step)
  {
    match step
    case UpdateDraft(file, contents) =>
      var drafts := Bumped(s.drafts, file, Some(contents));
      s.(drafts := drafts, client := Drafted(file, Version(drafts, file)))
    case FetchDraft(file) => s.(client := Drafted(file, Version(s.drafts, file)))
    case RemoveDraft(file) => s.(drafts := Bumped(s.drafts, file, None), client := DraftRemoved(file))
    case GetOrCreateFile =>
      var Drafted(file, version) := s.client;
      if file in s.units then s.(client := Resourced(file, version, s.units[file]))
      else s.(units := s.units[file := |s.files|], files := s.files + [Initial],
              client := Resourced(file, version, |s.files|))
    case DeferRebuild(command) =>
      var Resourced(file, version, unit) := s.client;
      var t := OnUnit(s, unit, RequestRebuild(command));
      t.(client := MustNotify(ReparseTask(file, version, unit, t.files[unit].file.rebuildCounter)))
    case RemoveIfPresent =>
      var file := s.client.file;
      if file !in s.units then s.(client := IdleClient)
      else s.(units := s.units - {file}, client := Detached(s.units[file]))
    case DeferCancel =>
      var unit := s.client.unit;
      var t := OnUnit(s, unit, RequestCancel);
      t.(client := MustNotify(CancelTask(unit, t.files[unit].file.rebuildCounter)))
    case ClientNotify =>
      var task := s.client.task;
      OnUnit(s, task.unit, NotifyRequest(task.request)).(client := MustPush(task))
    case AddToFront => s.(queue := Pushed(s.queue, s.client.task), client := IdleClient)
    case Take(w) =>
      var task := s.queue[0];
      SetWorker(s, w, if task.ReparseTask? then Checking(task) else Running(task)).(queue := s.queue[1..])
    case CheckVersion(w) =>
      var task := s.workers[w].task;
      SetWorker(s, w, if Version(s.drafts, task.file) != task.version then IdleWorker else Running(task))
    case RunClosure(w, fileStep) => OnUnit(s, s.workers[w].task.unit, fileStep)
    case Return(w) =>
      var task := s.workers[w].task;
      SetWorker(s, w, AfterRun(task, s.files[task.unit].closures[task.request].phase.result))
    case Publish(w) =>
      var p := s.workers[w].publication;
      SetWorker(s, w, IdleWorker).(
        reported := Recorded(s.reported, p), published := Announced(s.published, s.reported, p))
  }

  // ---------------------------------------------------------------- who holds which closure

  function ClientTask(c: Client): Option<Task> {
    if c.MustNotify? || c.MustPush? then Some(c.task) else None
  }

  function WorkerTask(w: Worker): Option<Task> {
    if w.Checking? || w.Running? then Some(w.task) else None
  }

  predicate Clash(a: Option<Task>, b: Option<Task>) {
    a.Some? && b.Some? && a.value.unit == b.value.unit && a.value.request == b.value.request
  }

  /** No closure is in two hands, so each is run at most once. */
  ghost predicate Unshared(c: Option<Task>, queue: seq<Task>, workers: seq<Worker>) {
    && (forall i, j | 0 <= i < j < |queue| :: !Clash(Some(queue[i]), Some(queue[j])))
    && (forall i, w | 0 <= i < |queue| && 0 <= w < |workers| :: !Clash(Some(queue[i]), WorkerTask(workers[w])))
    && (forall v, w | 0 <= v < w < |workers| :: !Clash(WorkerTask(workers[v]), WorkerTask(workers[w])))
    && (forall i | 0 <= i < |queue| :: !Clash(c, Some(queue[i])))
    && (forall w | 0 <= w < |workers| :: !Clash(c, WorkerTask(workers[w])))
  }

  function PhaseOf(s: State, t: Task): Phase
    requires t.unit < |s.files| && t.request < |s.files[t.unit].closures|
  {
    s.files[t.unit].closures[t.request].phase
  }

  predicate TaskOk(s: State, t: Task) {
    && t.unit < |s.files| && 0 < t.request < |s.files[t.unit].closures|
    && (t.ReparseTask? <==> s.files[t.unit].closures[t.request].kind.Rebuild?)
    && (t.ReparseTask? ==> t.version <= Version(s.drafts, t.file))
  }

  /** The closure that a publication comes from. */
  predicate PublicationOk(s: State, p: Publication) {
    p.unit < |s.files| && p.request < |s.files[p.unit].closures|
  }

  predicate WorkerOk(s: State, w: Worker) {
    match w
    case IdleWorker => true
    case Checking(t) => TaskOk(s, t) && t.ReparseTask? && PhaseOf(s, t).Deferred?
    case Running(t) => TaskOk(s, t) && !PhaseOf(s, t).Notifying?
    case Publishing(p) => p.version <= Version(s.drafts, p.file) && PublicationOk(s, p)
  }

  predicate ClientOk(s: State) {
    match s.client
    case IdleClient => true
    case Drafted(file, version) => Open(s.drafts, file) && version == Version(s.drafts, file)
    case Resourced(file, version, unit) =>
      && Open(s.drafts, file) && version == Version(s.drafts, file)
      && file in s.units && s.units[file] == unit
    case DraftRemoved(file) => !Open(s.drafts, file)
    case Detached(unit) => unit < |s.files| && unit !in s.units.Values
    case MustNotify(t) => TaskOk(s, t) && PhaseOf(s, t).Notifying?
    case MustPush(t) => TaskOk(s, t) && PhaseOf(s, t).Deferred?
  }

  ghost predicate Held(s: State, t: Task) {
    || ClientTask(s.client) == Some(t)
    || t in s.queue
    || exists w :: 0 <= w < |s.workers| && WorkerTask(s.workers[w]) == Some(t)
  }

  ghost predicate HandsOk(s: State) {
    && ClientOk(s)
    && (forall i :: 0 <= i < |s.queue| ==> TaskOk(s, s.queue[i]) && PhaseOf(s, s.queue[i]).Deferred?)
    && (forall w :: 0 <= w < |s.workers| ==> WorkerOk(s, s.workers[w]))
  }

  ghost predicate OneHandEach(s: State) {
    Unshared(ClientTask(s.client), s.queue, s.workers)
  }

  ghost predicate InHand(s: State, unit: nat, k: nat) {
    || (s.client.MustNotify? && s.client.task.unit == unit && s.client.task.request == k)
    || exists w :: 0 <= w < |s.workers| && s.workers[w].Running? &&
         s.workers[w].task.unit == unit && s.workers[w].task.request == k
  }

  /** A closure that has begun, or whose request still owes a notification, is in somebody's hands. */
  ghost predicate NoOrphans(s: State) {
    forall unit, k | 0 <= unit < |s.files| && 0 <= k < |s.files[unit].closures| ::
      s.files[unit].closures[k].phase.Deferred? || s.files[unit].closures[k].phase.Finished? || InHand(s, unit, k)
  }

  ghost predicate UnitsOk(s: State) {
    && (forall unit :: 0 <= unit < |s.files| ==> RebuildProtocol.Inv(s.files[unit]))
    && (forall f :: f in s.units ==> s.units[f] < |s.files|)
    && (forall f, g :: f in s.units && g in s.units && s.units[f] == s.units[g] ==> f == g)
    && (forall f :: f in s.units ==> Open(s.drafts, f) || s.client == DraftRemoved(f))
  }

  // ---------------------------------------------------------------- what is still owed

  /** The client is in the middle of replacing what was scheduled for this file. */
  predicate Updating(s: State, f: File) {
    (s.client.Drafted? || s.client.Resourced?) && s.client.file == f
  }

  function Newest(p: Protocol): nat { p.file.rebuildCounter }

  ghost predicate NewestFinished(s: State, unit: nat) {
    && unit < |s.files| && Newest(s.files[unit]) < |s.files[unit].closures|
    && s.files[unit].closures[Newest(s.files[unit])].phase.Finished?
  }

  /** A publication of the current version of f, from the newest request of its CppFile. */
  predicate OfNewest(s: State, f: File, p: Publication) {
    && p.file == f && p.version == Version(s.drafts, f)
    && f in s.units && p.unit == s.units[f] < |s.files| && p.request == Newest(s.files[p.unit])
  }

  ghost predicate BeingPublished(s: State, f: File) {
    exists w :: 0 <= w < |s.workers| && s.workers[w].Publishing? && OfNewest(s, f, s.workers[w].publication)
  }

  ghost predicate NewestPublished(s: State, f: File) {
    && Reported(s.reported, f) == Version(s.drafts, f)
    && exists i :: 0 <= i < |s.published| && OfNewest(s, f, s.published[i])
  }

  /** The newest request of an open file carries the current version and is under way or done. */
  ghost predicate OpenFilePursued(s: State, f: File) {
    && f in s.units && s.units[f] < |s.files|
    && var unit := s.units[f];
       || Held(s, ReparseTask(f, Version(s.drafts, f), unit, Newest(s.files[unit])))
       || (NewestFinished(s, unit) && (BeingPublished(s, f) || NewestPublished(s, f)))
  }

  ghost predicate ClosedUnitPursued(s: State, unit: nat)
    requires unit < |s.files|
  {
    NewestFinished(s, unit) || Held(s, CancelTask(unit, Newest(s.files[unit])))
  }

  ghost predicate NothingForgotten(s: State) {
    && (forall f :: Open(s.drafts, f) && !Updating(s, f) ==> OpenFilePursued(s, f))
    && (forall unit | 0 <= unit < |s.files| ::
          unit !in s.units.Values && s.client != Detached(unit) ==> ClosedUnitPursued(s, unit))
  }

  function LastPublished(published: seq<Publication>, f: File): nat {
    if published == [] then 0
    else if published[|published| - 1].file == f then published[|published| - 1].version
    else LastPublished(published[..|published| - 1], f)
  }

  ghost predicate PublishedInOrder(published: seq<Publication>) {
    forall i, j | 0 <= i < j < |published| ::
      published[i].file == published[j].file ==> published[i].version <= published[j].version
  }

  ghost predicate ReportsAgree(drafts: Drafts, reported: map<File, nat>, published: seq<Publication>) {
    && (forall f :: Reported(reported, f) <= Version(drafts, f))
    && (forall f :: LastPublished(published, f) == Reported(reported, f))
    && (forall i :: 0 <= i < |published| ==> published[i].version <= Reported(reported, published[i].file))
    && PublishedInOrder(published)
  }

  ghost predicate ReportsOk(s: State) {
    ReportsAgree(s.drafts, s.reported, s.published)
  }

  ghost predicate ServerInv(s: State) {
    UnitsOk(s) && HandsOk(s) && OneHandEach(s) && NoOrphans(s) && NothingForgotten(s) && ReportsOk(s)
  }
}
