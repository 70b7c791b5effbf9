/**
The daemon as a whole: requests, the queue, the runner with its hooks, and the project stores, as one
state machine over durable steps (src/scs/main.py, src/scs/indexing/runner.py and the two stores).
*/
module Daemon {
  import opened Outcome
  import opened Jobs
  import opened JobSafety
  import opened Registry

  // ---------------------------------------------------------------- state and events

  /** How far the runner has come with the job it claimed. */
  datatype Stage = Claimed | Started | Returned(clean: bool) | Published

  datatype Flight = Flight(id: JobId, stage: Stage)

  /** What is remembered about the last index job that started on a store generation. */
  datatype LastRun = Began | Ended(clean: bool)

  datatype World = World(
    table: Table, home: Home, flight: Option<Flight>, last: map<(string, string), LastRun>)

  const START := World([], Home(map[], map[], {}), None, map[])

  datatype WorldEvent =
    | Index(root: string, force: bool, gen: string, opens: bool, now: int)
    | EnrolCrash(root: string, gen: string, k: nat)
    | Submit(root: string, work: Work, now: int)
    | Drop(root: string, now: int)
    | Queue(e: Event)
    | ClaimJob(id: JobId, owner: string, expires: int)
    | Start
    | RunIndex(clean: bool)
    | RunDrop(order: seq<Tomb>, k: nat)
    | Publish
    | Finish
    | StopCancelled
    | ReportFailure
    | Crash
    | Recover(id: JobId, foreign: bool)

  function BindingRequest(root: string, record: Record, work: Work): Request {
    Request(root, Some(record.storeId), record.generation, work, 3)
  }

  function DeletionOf(id: JobId, row: Row): Deletion {
    Deletion(row.repo, if row.storeId.Some? then row.storeId.value else "", row.generation, id)
  }

  /** The store a deletion request would act on, if there is anything left of the repository. */
  function DeletionTarget(h: Home, root: string): Option<Record> {
    if root in h.catalog then Some(h.catalog[root])
    else
      var id := StoreIdForRoot(root);
      if id in h.live || exists t :: t in h.tombs && t.storeId == id then Some(Record(id, None, Uninitialized)) else None
  }

  predicate InFlight(w: World) {
    w.flight.Some? && w.flight.value.id < |w.table|
  }

  function Job(w: World): Row
    requires InFlight(w)
  {
    w.table[w.flight.value.id]
  }

  predicate AtStage(w: World, stage: Stage) {
    InFlight(w) && w.flight.value.stage == stage
  }

  /** What an index request does to the stores before it is enqueued; `opens` decides for a store whose database is missing. */
  function Enrolled(h: Home, root: string, gen: string, opens: bool): Result<Home, StoreError> {
    if root !in h.catalog || h.catalog[root].generation.None? then Ok(ApplyEnrols(h, EnrolPlan(h, root, gen)))
    else
      var id, generation := h.catalog[root].storeId, h.catalog[root].generation.value;
      if id in h.live && generation in h.live[id].databases then Ok(h)
      else if opens then Ok(AddDatabase(h, id, generation))
      else Err(CannotOpen)
  }

  function Admit(w: World, h: Home, q: Request, now: int): World {
    match Jobs.Enqueue(w.table, q, now)
    case Ok(a) => w.(table := a.table, home := h)
    case Err(_) => w.(home := h)
  }

  /** A hook: move the state of the store the job in flight is bound to. */
  function Mark(w: World, state: StoreState, stage: Stage): World
    requires InFlight(w)
  {
    var row, id := Job(w), w.flight.value.id;
    if row.work.mode.DropIndex? || row.generation.None? then w.(flight := Some(Flight(id, stage)))
    else
      match Registry.UpdateState(w.home, row.repo, row.generation.value, state)
      case Err(_) => w
      case Ok(h) => w.(home := h, flight := Some(Flight(id, stage)))
  }

  /** The history after an index job in flight has begun or returned; the hooks themselves are no evidence of anything. */
  function Recall(w: World, ran: LastRun): map<(string, string), LastRun>
    requires InFlight(w)
  {
    var row := Job(w);
    if row.work.mode.DropIndex? || row.generation.None? then w.last
    else w.last[(row.repo, row.generation.value) := ran]
  }

  ghost predicate Allowed(w: World, e: WorldEvent) {
    match e
    case Submit(root, work, _) => !work.mode.DropIndex? && root in w.home.catalog && w.home.catalog[root].generation.Some?
    case Queue(q) =>
      (q.RequestCancel? || q.CancelAll? || q.Heartbeat? || q.Install? || q.Acknowledge?) && Enabled(w.table, q, StoreIdForRoot)
    case ClaimJob(id, _, _) => w.flight.None? && FirstInLine(w.table, id)
    case Start => AtStage(w, Claimed)
    case RunIndex(_) => AtStage(w, Started) && !Job(w).work.mode.DropIndex?
    case RunDrop(order, k) =>
      && AtStage(w, Started) && Job(w).work.mode.DropIndex?
      && var d := DeletionOf(w.flight.value.id, Job(w));
         Enumerates(order, RetiredBy(w.home, d)) && k <= |DropPlan(w.home, d, order)|
    case Publish => AtStage(w, Returned(true))
    case Finish => AtStage(w, Published)
    case StopCancelled => InFlight(w) && Job(w).status.Cancelling?
    case ReportFailure => InFlight(w)
    case Recover(id, _) => w.flight.None? && id < |w.table| && w.table[id].status.Leased()
    case _ => true
  }

  function Step(w: World, e: WorldEvent): World {
    match e
    case Index(root, force, gen, opens, now) =>
      if ActiveDeletion(w.table, root).Some? then w
      else
        (match Enrolled(w.home, root, gen, opens)
         case Err(_) => w
         case Ok(h) =>
           if root !in h.catalog then w
           else Admit(w, h, BindingRequest(root, h.catalog[root], Work(if force then ForceFull else Full, NO_PAYLOAD)), now))
    case EnrolCrash(root, gen, k) =>
      if ActiveDeletion(w.table, root).Some? then w.(flight := None)
      else
        var plan := EnrolPlan(w.home, root, gen);
        w.(home := ApplyEnrols(w.home, if k <= |plan| then plan[..k] else plan), flight := None)
    case Submit(root, work, now) =>
      if ActiveDeletion(w.table, root).Some? || root !in w.home.catalog then w
      else Admit(w, w.home, BindingRequest(root, w.home.catalog[root], work), now)
    case Drop(root, now) =>
      (match DeletionTarget(w.home, root)
       case None => w
       case Some(record) =>
         if ActiveDeletion(w.table, root).Some? then w
         else Admit(w, w.home, BindingRequest(root, record, Work(DropIndex, NO_PAYLOAD)), now))
    case Queue(q) => w.(table := Apply(w.table, q))
    case ClaimJob(id, owner, expires) =>
      w.(table := Apply(w.table, Claim(id, owner, expires)), flight := Some(Flight(id, Claimed)))
    case Start => if InFlight(w) then Mark(w, SemanticStale, Started).(last := Recall(w, Began)) else w
    case RunIndex(clean) =>
      if InFlight(w) then
        w.(flight := Some(Flight(w.flight.value.id, Returned(clean))), last := Recall(w, Ended(clean)))
      else w
    case RunDrop(order, k) =>
      if InFlight(w) then
        var id := w.flight.value.id;
        var d := DeletionOf(id, Job(w));
        var plan := DropPlan(w.home, d, order);
        if k <= |plan| then
          w.(home := ApplyDrops(w.home, d, plan[..k]), flight := Some(Flight(id, Returned(k == |plan|))))
        else w
      else w
    case Publish => if InFlight(w) then Mark(w, SemanticReady, Published) else w
    case Finish => if InFlight(w) then w.(table := Apply(w.table, Complete(w.flight.value.id)), flight := None) else w
    case StopCancelled => if InFlight(w) then w.(table := Apply(w.table, MarkCancelled(w.flight.value.id)), flight := None) else w
    case ReportFailure => if InFlight(w) then w.(table := Apply(w.table, Fail(w.flight.value.id)), flight := None) else w
    case Crash => w.(flight := None)
    case Recover(id, foreign) => w.(table := Apply(w.table, Reclaim(id, foreign)))
  }

  // ---------------------------------------------------------------- the invariant

  ghost predicate Stored(t: Table) {
    forall i :: 0 <= i < |t| ==> t[i].storeId == Some(StoreIdForRoot(t[i].repo))
  }

  ghost predicate CatalogIds(h: Home) {
    forall root :: root in h.catalog ==> h.catalog[root].storeId == StoreIdForRoot(root)
  }

  /** Binding agreement: active index work is bound to exactly what the catalog holds. */
  ghost predicate Bound(t: Table, h: Home) {
    forall i :: 0 <= i < |t| && t[i].status.Active() && !t[i].work.mode.DropIndex? ==>
      && t[i].repo in h.catalog
      && t[i].generation.Some?
      && h.catalog[t[i].repo].generation == t[i].generation
  }

  /** An active deletion is never overtaken by another binding. */
  ghost predicate DropsBound(t: Table, h: Home) {
    forall i :: 0 <= i < |t| && t[i].IsDeletion() && t[i].repo in h.catalog ==>
      h.catalog[t[i].repo].generation == t[i].generation
  }

  /** Tombstones belong to deletion jobs, and a store is not rebuilt while its deletion is active. */
  ghost predicate Buried(t: Table, h: Home) {
    forall tomb :: tomb in h.tombs ==>
      && tomb.deletion < |t|
      && t[tomb.deletion].work.mode.DropIndex?
      && tomb.storeId == StoreIdForRoot(t[tomb.deletion].repo)
      && (t[tomb.deletion].status.Active() ==> tomb.storeId !in h.live)
  }

  /** An activated generation has its database for as long as its store directory is live. */
  ghost predicate Built(h: Home) {
    forall root :: root in h.catalog && h.catalog[root].generation.Some? && h.catalog[root].storeId in h.live ==>
      h.catalog[root].generation.value in h.live[h.catalog[root].storeId].databases
  }

  ghost predicate FlightLeased(w: World) {
    w.flight.Some? ==> InFlight(w) && Job(w).status.Leased()
  }

  /** What the runner remembers about an index job between its start hook and its completion hook. */
  ghost predicate FlightRecorded(w: World) {
    InFlight(w) && !Job(w).work.mode.DropIndex? && Job(w).generation.Some? ==>
      var at := (Job(w).repo, Job(w).generation.value);
      && (w.flight.value.stage.Returned? ==> at in w.last && w.last[at] == Ended(w.flight.value.stage.clean))
      && (w.flight.value.stage.Started? || w.flight.value.stage.Returned? ==>
          Job(w).repo in w.home.catalog && !w.home.catalog[Job(w).repo].state.SemanticReady?)
  }

  /** Readiness is truthful: the last index job that started on the generation returned cleanly. */
  ghost predicate Truthful(w: World) {
    forall root :: root in w.home.catalog && w.home.catalog[root].state.SemanticReady? ==>
      && w.home.catalog[root].generation.Some?
      && (root, w.home.catalog[root].generation.value) in w.last
      && w.last[(root, w.home.catalog[root].generation.value)] == Ended(true)
  }

  ghost predicate Coherent(w: World) {
    && Safe(w.table, StoreIdForRoot)
    && Stored(w.table) && CatalogIds(w.home) && Built(w.home)
    && Bound(w.table, w.home) && DropsBound(w.table, w.home) && Buried(w.table, w.home)
    && FlightLeased(w) && FlightRecorded(w) && Truthful(w)
  }
}
