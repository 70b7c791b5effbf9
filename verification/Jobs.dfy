/**
The durable ingestion queue (src/scs/indexing/jobs.py).

The table is a sequence of rows: a job's id is its position, which stands for the fresh identifier
the store draws for every inserted row.  Each transaction of the store is one function from table to
table; class `JobStore` carries out the transactions in place, and modules `JobSafety`, `Requests`,
`Checkpoint` and `Drain` prove what they keep over whole runs.
*/
module Jobs {
  import opened Outcome

  // ---------------------------------------------------------------- requests and payloads

  datatype Mode = Cleanup | Files | Full | ForceFull | DropIndex {
    function Rank(): nat {
      match this
      case Cleanup => 0
      case Files => 1
      case Full => 2
      case ForceFull => 3
      case DropIndex => 4
    }
  }

  /** One frozen file of a force-full manifest, keyed by its repository-relative path. */
  datatype FrozenFile = FrozenFile(hash: string, language: string, size: int, acknowledged: bool)

  datatype Snapshot = Snapshot(storeId: Option<string>, generation: Option<string>, files: map<string, FrozenFile>)

  datatype Payload = Payload(files: set<string>, deleted: set<string>, snapshot: Option<Snapshot>)

  const NO_PAYLOAD := Payload({}, {}, None)

  /** What a job is asked to do: its mode together with its payload. */
  datatype Work = Work(mode: Mode, payload: Payload) {
    /** Paths belong to `files` requests only, and manifests to force requests only. */
    predicate Normal() {
      && (mode.Files? || (payload.files == {} && payload.deleted == {}))
      && (mode.ForceFull? || payload.snapshot.None?)
    }

    /** A stronger mode covers everything weaker; two `files` jobs are compared by their paths. */
    predicate Covers(other: Work) {
      || mode.Rank() > other.mode.Rank()
      || (mode == other.mode &&
          (mode.Files? ==> other.payload.files <= payload.files && other.payload.deleted <= payload.deleted))
    }
  }

  /** Merge a waiting job with another piece of work for the same repository. */
  function Merge(existing: Work, incoming: Work): Work {
    if existing.mode.DropIndex? || incoming.mode.DropIndex? then Work(DropIndex, NO_PAYLOAD)
    else
      var winner := if incoming.mode.Rank() > existing.mode.Rank() then incoming.mode else existing.mode;
      match winner
      case Full => Work(Full, NO_PAYLOAD)
      case Cleanup => Work(Cleanup, NO_PAYLOAD)
      case ForceFull =>
        var source := if incoming.mode.ForceFull? then incoming else existing;
        Work(ForceFull, NO_PAYLOAD.(snapshot := source.payload.snapshot))
      case _ =>
        Work(Files, Payload(existing.payload.files + incoming.payload.files,
                            existing.payload.deleted + incoming.payload.deleted, None))
  }

  // ---------------------------------------------------------------- rows

  /** `Retrying` is read by the store but never written by it. */
  datatype Status = Queued | Retrying | Running | Cancelling | Completed | Failed | Cancelled {
    predicate Waiting() { Queued? || Retrying? }
    predicate Leased() { Running? || Cancelling? }
    predicate Active() { Waiting() || Leased() }
  }

  type JobId = nat

  datatype Row = Row(
    repo: string,
    storeId: Option<string>,
    generation: Option<string>,
    work: Work,
    status: Status,
    attempts: int,
    maxAttempts: int,
    leaseOwner: Option<string>,
    leaseExpires: Option<int>,
    createdAt: int)
  {
    function StoreKey(): string {
      if storeId.Some? then storeId.value else repo
    }

    predicate IsDeletion() {
      work.mode.DropIndex? && status.Active()
    }

    function Released(newStatus: Status, newAttempts: int): Row {
      this.(status := newStatus, attempts := newAttempts, leaseOwner := None, leaseExpires := None)
    }
  }

  type Table = seq<Row>

  /** The first row, in insertion order, whose id and content satisfy `p`. */
  function Find(t: Table, p: (JobId, Row) -> bool): (r: Option<JobId>)
    ensures r.Some? ==> r.value < |t| && p(r.value, t[r.value])
    ensures r.Some? ==> forall j: JobId :: j < r.value ==> !p(j, t[j])
    ensures r.None? ==> forall j: JobId :: j < |t| ==> !p(j, t[j])
  {
    if t == [] then None
    else
      var last := |t| - 1;
      match Find(t[..last], p)
      case Some(i) => Some(i)
      case None => if p(last, t[last]) then Some(last) else None
  }

  /** The deletion that currently owns a repository, queued or running. */
  function ActiveDeletion(t: Table, repo: string): (r: Option<JobId>)
    ensures r.Some? ==> r.value < |t| && t[r.value].repo == repo && t[r.value].IsDeletion()
    ensures r.None? ==> forall j: JobId :: j < |t| && t[j].IsDeletion() ==> t[j].repo != repo
  {
    Find(t, (i, row: Row) => row.repo == repo && row.IsDeletion())
  }

  /** The waiting row of a repository other than `except`; the partial unique index allows at most one. */
  function OtherWaiting(t: Table, repo: string, except: JobId): (r: Option<JobId>)
    ensures r.Some? ==> r.value < |t| && r.value != except && t[r.value].repo == repo && t[r.value].status.Waiting()
    ensures r.None? ==> forall j: JobId :: j < |t| && j != except && t[j].status.Waiting() ==> t[j].repo != repo
  {
    Find(t, (i, row: Row) => i != except && row.repo == repo && row.status.Waiting())
  }

  // ---------------------------------------------------------------- transactions

  datatype Request = Request(
    repo: string, storeId: Option<string>, generation: Option<string>, work: Work, maxAttempts: int)

  datatype Accepted = Accepted(table: Table, id: JobId)

  datatype QueueError =
    | DeletionInProgress | UnknownJob | NotForceFull | InvalidFile | DuplicatePath | NoSnapshot | UnknownPath | NoLongerActive

  function NewRow(q: Request, now: int): Row {
    Row(q.repo, q.storeId, q.generation, q.work, Queued, 0, q.maxAttempts, None, None, now)
  }

  function Enqueue(t: Table, q: Request, now: int): Result<Accepted, QueueError> {
    match ActiveDeletion(t, q.repo)
    case Some(d) =>
      if q.work.mode.DropIndex? then Ok(Accepted(t, d)) else Err(DeletionInProgress)
    case None =>
      match OtherWaiting(t, q.repo, |t|)
      case Some(w) => Ok(Accepted(t[w := t[w].(work := Merge(t[w].work, q.work), status := Queued)], w))
      case None => Ok(Accepted(t + [NewRow(q, now)], |t|))
  }

  /** No running or cancelling row holds the candidate's store. */
  predicate Claimable(t: Table, id: JobId) {
    && id < |t|
    && t[id].status.Waiting()
    && forall j: JobId :: j < |t| && t[j].status.Leased() ==> t[j].StoreKey() != t[id].StoreKey()
  }

  /** Cleanup jobs come last; otherwise the oldest row comes first. */
  predicate NoLater(a: Row, b: Row) {
    if a.work.mode.Cleanup? == b.work.mode.Cleanup? then a.createdAt <= b.createdAt else b.work.mode.Cleanup?
  }

  predicate FirstInLine(t: Table, id: JobId) {
    Claimable(t, id) && forall j: JobId :: j < |t| && Claimable(t, j) ==> NoLater(t[id], t[j])
  }

  function Claim(t: Table, id: JobId, owner: string, expires: int): Table
    requires id < |t|
  {
    t[id := t[id].(status := Running, leaseOwner := Some(owner), leaseExpires := Some(expires))]
  }

  function Heartbeat(t: Table, id: JobId, owner: string, expires: int): Table {
    if id < |t| && t[id].status.Leased()
    then t[id := t[id].(leaseOwner := Some(owner), leaseExpires := Some(expires))] else t
  }

  function Complete(t: Table, id: JobId): Table
    requires id < |t|
  {
    t[id := t[id].Released(if t[id].status.Cancelling? then Cancelled else Completed, t[id].attempts)]
  }

  /** Hand the work of `id` to the waiting follow-up `heir` and close `id`. */
  function MergeInto(t: Table, id: JobId, heir: JobId, attempts: int): Table
    requires id < |t| && heir < |t|
  {
    var merged := t[heir := t[heir].(work := Merge(t[heir].work, t[id].work))];
    merged[id := merged[id].Released(Cancelled, attempts)]
  }

  /** The follow-up that takes over the work of a failing row, if there is one. */
  function FailHeir(t: Table, id: JobId): (r: Option<JobId>)
    requires id < |t|
    ensures r.Some? ==> r.value < |t| && r.value != id && t[r.value].repo == t[id].repo && t[r.value].status.Waiting()
  {
    if t[id].attempts + 1 >= t[id].maxAttempts then None else OtherWaiting(t, t[id].repo, id)
  }

  function FailOrRetry(t: Table, id: JobId): Table
    requires id < |t|
  {
    var attempts := t[id].attempts + 1;
    if attempts >= t[id].maxAttempts then t[id := t[id].Released(Failed, attempts)]
    else
      match FailHeir(t, id)
      case Some(heir) => MergeInto(t, id, heir, attempts)
      case None => t[id := t[id].Released(Queued, attempts)]
  }

  function RequestCancel(t: Table, id: JobId): Table
    requires id < |t|
  {
    if t[id].status.Waiting() then t[id := t[id].(status := Cancelled)]
    else if t[id].status.Running? then t[id := t[id].(status := Cancelling)]
    else t
  }

  function CancelRow(row: Row): Row {
    if row.work.mode.DropIndex? then row
    else if row.status.Waiting() then row.Released(Cancelled, row.attempts)
    else if row.status.Running? then row.(status := Cancelling)
    else row
  }

  function CancelAll(t: Table): Table {
    seq(|t|, i requires 0 <= i < |t| => CancelRow(t[i]))
  }

  function MarkCancelled(t: Table, id: JobId): Table
    requires id < |t|
  {
    t[id := t[id].Released(Cancelled, t[id].attempts)]
  }

  /** Whose leases a recovery pass takes back. */
  datatype Recovery = Recovery(owner: Option<string>, otherOwners: bool, now: int) {
    predicate Foreign(row: Row) {
      otherOwners && owner.Some? && owner.value != "" && row.leaseOwner != owner
    }

    predicate Stale(row: Row) {
      row.status.Leased() && row.leaseExpires.Some? && (row.leaseExpires.value < now || Foreign(row))
    }
  }

  function ReclaimHeir(t: Table, id: JobId): (r: Option<JobId>)
    requires id < |t|
    ensures r.Some? && t[id].status.Leased() ==> r.value != id
    ensures r.Some? ==> r.value < |t| && t[r.value].repo == t[id].repo && t[r.value].status.Waiting()
  {
    OtherWaiting(t, t[id].repo, |t|)
  }

  /** Take one stale row back; a row taken from another owner is not charged an attempt. */
  function ReclaimRow(t: Table, id: JobId, foreign: bool): Table
    requires id < |t|
  {
    match ReclaimHeir(t, id)
    case Some(heir) => MergeInto(t, id, heir, t[id].attempts)
    case None =>
      var attempts := if foreign then t[id].attempts else t[id].attempts + 1;
      t[id := t[id].Released(if attempts >= t[id].maxAttempts then Failed else Queued, attempts)]
  }

  function ReclaimAll(t: Table, ids: seq<JobId>, r: Recovery): (t': Table)
    requires forall i :: 0 <= i < |ids| ==> ids[i] < |t|
    ensures |t'| == |t|
  {
    if ids == [] then t
    else
      var before := ReclaimAll(t, ids[..|ids| - 1], r);
      var id := ids[|ids| - 1];
      ReclaimRow(before, id, r.Foreign(before[id]))
  }

  // ---------------------------------------------------------------- force-full manifests

  datatype FileRecord = FileRecord(path: string, file: FrozenFile)

  predicate Escapes(path: string) {
    exists i :: 0 <= i < |path| - 1 && EscapesAt(path, i)
  }

  /** The parent directory starts here, as a component of its own. */
  predicate EscapesAt(path: string, i: nat)
    requires i < |path| - 1
  {
    path[i] == '.' && path[i + 1] == '.' && (i == 0 || path[i - 1] == '/') && (i + 2 == |path| || path[i + 2] == '/')
  }

  /** The parent directory stands between two parts of a path, as a component of its own. */
  predicate Climbs(path: string, before: string, after: string) {
    && path == before + ".." + after
    && (before == "" || before[|before| - 1] == '/')
    && (after == "" || after[0] == '/')
  }

  /** A path escapes its root when one of its components is the parent directory. */
  lemma EscapesExactly(path: string)
    ensures Escapes(path) <==> exists before, after :: Climbs(path, before, after)
  {
    if Escapes(path) {
      var i :| 0 <= i < |path| - 1 && EscapesAt(path, i);
      assert Climbs(path, path[..i], path[i + 2..]);
    }
    if before, after :| Climbs(path, before, after) {
      assert EscapesAt(path, |before|);
    }
  }

  predicate ValidRecord(r: FileRecord) {
    r.path != "" && r.path[0] != '/' && !Escapes(r.path) && r.file.hash != "" && r.file.size >= 0
  }

  /** Validate a manifest and key it by path; the first offending record decides the error. */
  function FreezeFiles(files: seq<FileRecord>): Result<map<string, FrozenFile>, QueueError> {
    if files == [] then Ok(map[])
    else
      var last := files[|files| - 1];
      match FreezeFiles(files[..|files| - 1])
      case Err(e) => Err(e)
      case Ok(frozen) =>
        if !ValidRecord(last) then Err(InvalidFile)
        else if last.path in frozen then Err(DuplicatePath)
        else Ok(frozen[last.path := last.file])
  }

  predicate WellFormedManifest(files: seq<FileRecord>) {
    && (forall i :: 0 <= i < |files| ==> ValidRecord(files[i]))
    && (forall i, j :: 0 <= i < j < |files| ==> files[i].path != files[j].path)
  }

  predicate Freezes(files: seq<FileRecord>, frozen: map<string, FrozenFile>) {
    && (forall i :: 0 <= i < |files| ==> files[i].path in frozen && frozen[files[i].path] == files[i].file)
    && (forall p :: p in frozen ==> exists i :: 0 <= i < |files| && files[i].path == p)
  }

  /** A manifest is accepted exactly when every record is valid and no path repeats, and loses nothing. */
  lemma {:induction false} FreezeFilesFaithful(files: seq<FileRecord>)
    ensures FreezeFiles(files).Ok? <==> WellFormedManifest(files)
    ensures FreezeFiles(files).Ok? ==> Freezes(files, FreezeFiles(files).value)
  {
    if files != [] {
      var init, last := files[..|files| - 1], files[|files| - 1];
      FreezeFilesFaithful(init);
      if FreezeFiles(init).Ok? {
        FreezeOneMore(init, last, FreezeFiles(init).value);
      }
      assert init + [last] == files;
    }
  }

  lemma FreezeOneMore(init: seq<FileRecord>, last: FileRecord, frozen: map<string, FrozenFile>)
    requires WellFormedManifest(init) && Freezes(init, frozen)
    ensures WellFormedManifest(init + [last]) <==> ValidRecord(last) && last.path !in frozen
    ensures last.path !in frozen ==> Freezes(init + [last], frozen[last.path := last.file])
  {
    var files := init + [last];
    if last.path in frozen {
      var i :| 0 <= i < |init| && init[i].path == last.path;
      assert files[i].path == files[|init|].path;
    } else {
      var grown := frozen[last.path := last.file];
      forall p | p in grown
        ensures exists i :: 0 <= i < |files| && files[i].path == p
      {
        if p == last.path {
          assert files[|init|].path == p;
        } else {
          var i :| 0 <= i < |init| && init[i].path == p;
          assert files[i].path == p;
        }
      }
    }
    if WellFormedManifest(files) {
      assert ValidRecord(files[|init|]);
    }
  }

  function InstallSnapshot(t: Table, id: JobId, files: seq<FileRecord>): Result<Table, QueueError> {
    match FreezeFiles(files)
    case Err(e) => Err(e)
    case Ok(frozen) =>
      if id >= |t| then Err(UnknownJob)
      else if !t[id].work.mode.ForceFull? then Err(NotForceFull)
      else if t[id].work.payload.snapshot.Some? then Ok(t)
      else
        var payload := t[id].work.payload.(snapshot := Some(Snapshot(t[id].storeId, t[id].generation, frozen)));
        Ok(t[id := t[id].(work := t[id].work.(payload := payload))])
  }

  function Acknowledged(files: map<string, FrozenFile>, paths: set<string>): map<string, FrozenFile> {
    map p | p in files :: if p in paths then files[p].(acknowledged := true) else files[p]
  }

  function AcknowledgeFiles(t: Table, id: JobId, paths: set<string>): Result<Table, QueueError> {
    if id >= |t| then Err(UnknownJob)
    else if paths == {} then Ok(t)
    else
      match t[id].work.payload.snapshot
      case None => Err(NoSnapshot)
      case Some(s) =>
        if !(paths <= s.files.Keys) then Err(UnknownPath)
        else if !t[id].status.Leased() then Err(NoLongerActive)
        else
          var payload := t[id].work.payload.(snapshot := Some(s.(files := Acknowledged(s.files, paths))));
          Ok(t[id := t[id].(work := t[id].work.(payload := payload))])
  }
}
