/** Queue safety: what every transaction keeps, for every table that satisfies it. */
module JobSafety {
  import opened Jobs

  /** Every row's store key is the one its repository determines. */
  ghost predicate WellKeyed(t: Table, key: string -> string) {
    forall i :: 0 <= i < |t| ==> t[i].StoreKey() == key(t[i].repo)
  }

  ghost predicate AttemptsLeft(t: Table) {
    forall i :: 0 <= i < |t| && t[i].status.Active() ==> t[i].attempts < t[i].maxAttempts
  }

  /** The partial unique index on waiting rows. */
  ghost predicate OneWaiting(t: Table) {
    forall i, j :: 0 <= i < j < |t| && t[i].status.Waiting() && t[j].status.Waiting() ==> t[i].repo != t[j].repo
  }

  ghost predicate OneLeased(t: Table) {
    forall i, j :: 0 <= i < j < |t| && t[i].status.Leased() && t[j].status.Leased() ==>
      t[i].StoreKey() != t[j].StoreKey()
  }

  /** While a deletion is active nothing else of its repository waits. */
  ghost predicate DeletionExclusive(t: Table) {
    forall i, j :: 0 <= i < |t| && 0 <= j < |t| && i != j && t[i].IsDeletion() && t[j].status.Waiting() ==>
      t[i].repo != t[j].repo
  }

  ghost predicate Safe(t: Table, key: string -> string) {
    WellKeyed(t, key) && AttemptsLeft(t) && OneWaiting(t) && OneLeased(t) && DeletionExclusive(t)
  }

  /** Two leased rows never work on one store. */
  lemma LeasedStoresDiffer(t: Table, key: string -> string, i: JobId, j: JobId)
    requires Safe(t, key) && i < |t| && j < |t| && i != j
    requires (t[i].status == Running || t[i].status == Cancelling) && (t[j].status == Running || t[j].status == Cancelling)
    ensures t[i].storeId.Some? ==> t[i].storeId != t[j].storeId
    ensures t[i].repo != t[j].repo
  {
    assert t[i].StoreKey() != t[j].StoreKey();
  }

  // ---------------------------------------------------------------- one transaction at a time

  datatype Event =
    | Enqueue(request: Request, now: int)
    | Claim(id: JobId, owner: string, expires: int)
    | Heartbeat(id: JobId, owner: string, expires: int)
    | Complete(id: JobId)
    | Fail(id: JobId)
    | RequestCancel(id: JobId)
    | CancelAll
    | MarkCancelled(id: JobId)
    | Reclaim(id: JobId, foreign: bool)
    | Install(id: JobId, files: seq<FileRecord>)
    | Acknowledge(id: JobId, paths: set<string>)

  /** What callers owe: well-keyed requests with a positive budget, and reports about leased rows only. */
  ghost predicate Enabled(t: Table, e: Event, key: string -> string) {
    match e
    case Enqueue(q, _) =>
      q.maxAttempts >= 1 && (if q.storeId.Some? then q.storeId.value else q.repo) == key(q.repo)
    case Claim(id, _, _) => FirstInLine(t, id)
    case Complete(id) => id < |t| && t[id].status.Leased()
    case Fail(id) => id < |t| && t[id].status.Leased()
    case MarkCancelled(id) => id < |t| && t[id].status.Cancelling?
    case Reclaim(id, _) => id < |t| && t[id].status.Leased()
    case RequestCancel(id) => id < |t|
    case _ => true
  }

  function Apply(t: Table, e: Event): Table {
    match e
    case Enqueue(q, now) =>
      (match Jobs.Enqueue(t, q, now) case Ok(a) => a.table case Err(_) => t)
    case Claim(id, owner, expires) => if id < |t| then Jobs.Claim(t, id, owner, expires) else t
    case Heartbeat(id, owner, expires) => Jobs.Heartbeat(t, id, owner, expires)
    case Complete(id) => if id < |t| then Jobs.Complete(t, id) else t
    case Fail(id) => if id < |t| then Jobs.FailOrRetry(t, id) else t
    case RequestCancel(id) => if id < |t| then Jobs.RequestCancel(t, id) else t
    case CancelAll => Jobs.CancelAll(t)
    case MarkCancelled(id) => if id < |t| then Jobs.MarkCancelled(t, id) else t
    case Reclaim(id, foreign) => if id < |t| then Jobs.ReclaimRow(t, id, foreign) else t
    case Install(id, files) =>
      (match Jobs.InstallSnapshot(t, id, files) case Ok(t') => t' case Err(_) => t)
    case Acknowledge(id, paths) =>
      (match Jobs.AcknowledgeFiles(t, id, paths) case Ok(t') => t' case Err(_) => t)
  }

  lemma AppendKeepsSafe(t: Table, row: Row, key: string -> string)
    requires Safe(t, key) && row.StoreKey() == key(row.repo)
    requires row.status.Queued? && row.attempts < row.maxAttempts
    requires forall j: JobId :: j < |t| && t[j].repo == row.repo ==> !t[j].status.Waiting() && !t[j].IsDeletion()
    ensures Safe(t + [row], key)
  {
  }

  lemma EnqueueKeepsSafe(t: Table, q: Request, now: int, key: string -> string)
    requires Safe(t, key) && Enabled(t, Enqueue(q, now), key)
    ensures Safe(Apply(t, Enqueue(q, now)), key)
  {
    if ActiveDeletion(t, q.repo).None? {
      match OtherWaiting(t, q.repo, |t|)
      case Some(w) => CoalesceKeepsSafe(t, w, Merge(t[w].work, q.work), key);
      case None => AppendKeepsSafe(t, NewRow(q, now), key);
    }
  }

  /** The one waiting row of a repository without an active deletion may take on any work. */
  lemma CoalesceKeepsSafe(t: Table, w: JobId, work: Work, key: string -> string)
    requires Safe(t, key) && w < |t| && t[w].status.Waiting()
    requires ActiveDeletion(t, t[w].repo).None?
    ensures Safe(t[w := t[w].(work := work, status := Queued)], key)
  {
  }

  lemma ClaimKeepsSafe(t: Table, id: JobId, owner: string, expires: int, key: string -> string)
    requires Safe(t, key) && FirstInLine(t, id)
    ensures Safe(Jobs.Claim(t, id, owner, expires), key)
  {
  }

  /** Closing rows, whatever their state, keeps the table safe. */
  lemma ReleaseKeepsSafe(t: Table, id: JobId, status: Status, attempts: int, key: string -> string)
    requires Safe(t, key) && id < |t| && !status.Active()
    ensures Safe(t[id := t[id].Released(status, attempts)], key)
  {
  }

  /** Handing work to the follow-up keeps the table safe: only a follow-up that is free to wait becomes a deletion. */
  lemma MergeIntoKeepsSafe(t: Table, id: JobId, heir: JobId, attempts: int, key: string -> string)
    requires Safe(t, key) && id < |t| && heir < |t| && heir != id
    requires t[heir].status.Waiting() && t[heir].repo == t[id].repo
    ensures Safe(MergeInto(t, id, heir, attempts), key)
  {
    var t1 := t[heir := t[heir].(work := Merge(t[heir].work, t[id].work))];
    assert Safe(t1, key);
    assert MergeInto(t, id, heir, attempts) == t1[id := t1[id].Released(Cancelled, attempts)];
    ReleaseKeepsSafe(t1, id, Cancelled, attempts, key);
  }

  /** Putting a row back in the queue is safe when nothing of its repository waits and no deletion is in its way. */
  lemma RequeueKeepsSafe(t: Table, id: JobId, attempts: int, key: string -> string)
    requires Safe(t, key) && id < |t| && attempts < t[id].maxAttempts
    requires forall j: JobId :: j < |t| && j != id && t[j].repo == t[id].repo ==>
      !t[j].status.Waiting() && !t[j].IsDeletion()
    ensures Safe(t[id := t[id].Released(Queued, attempts)], key)
  {
  }

  /** What a failure report may safely meet: an active row, spent attempts, a follow-up, or no deletion. */
  predicate MayFail(t: Table, id: JobId)
    requires id < |t|
  {
    || t[id].status.Active()
    || t[id].attempts + 1 >= t[id].maxAttempts
    || OtherWaiting(t, t[id].repo, id).Some?
    || ActiveDeletion(t, t[id].repo).None?
  }

  /**
  A failure report keeps the table safe exactly when its row is still active, or is closed for good,
  or hands its work to a follow-up, or at least meets no deletion of its repository.
  */
  lemma FailKeepsSafeExactly(t: Table, id: JobId, key: string -> string)
    requires Safe(t, key) && id < |t|
    ensures Safe(FailOrRetry(t, id), key) <==> MayFail(t, id)
  {
    var row, attempts := t[id], t[id].attempts + 1;
    if attempts >= row.maxAttempts {
      ReleaseKeepsSafe(t, id, Failed, attempts, key);
    } else if OtherWaiting(t, row.repo, id).Some? {
      MergeIntoKeepsSafe(t, id, OtherWaiting(t, row.repo, id).value, attempts, key);
    } else if row.status.Active() || ActiveDeletion(t, row.repo).None? {
      RequeueKeepsSafe(t, id, attempts, key);
    } else {
      var d := ActiveDeletion(t, row.repo).value;
      var t' := FailOrRetry(t, id);
      assert t'[d].IsDeletion() && t'[id].status.Waiting() && d != id;
    }
  }

  lemma ReclaimKeepsSafe(t: Table, id: JobId, foreign: bool, key: string -> string)
    requires Safe(t, key) && id < |t| && t[id].status.Leased()
    ensures Safe(ReclaimRow(t, id, foreign), key)
  {
    match ReclaimHeir(t, id)
    case Some(heir) => MergeIntoKeepsSafe(t, id, heir, t[id].attempts, key);
    case None =>
      var attempts := if foreign then t[id].attempts else t[id].attempts + 1;
      if attempts >= t[id].maxAttempts {
        ReleaseKeepsSafe(t, id, Failed, attempts, key);
      } else {
        RequeueKeepsSafe(t, id, attempts, key);
      }
  }

  lemma CancelKeepsSafe(t: Table, id: JobId, key: string -> string)
    requires Safe(t, key) && id < |t|
    ensures Safe(Jobs.RequestCancel(t, id), key)
  {
  }

  lemma CancelAllKeepsSafe(t: Table, key: string -> string)
    requires Safe(t, key)
    ensures Safe(Jobs.CancelAll(t), key)
  {
    var t' := Jobs.CancelAll(t);
    assert forall i :: 0 <= i < |t| ==> t'[i].repo == t[i].repo && t'[i].StoreKey() == t[i].StoreKey();
    assert forall i :: 0 <= i < |t| ==> (t'[i].status.Waiting() ==> t[i].status.Waiting());
    assert forall i :: 0 <= i < |t| ==> (t'[i].status.Leased() ==> t[i].status.Leased());
    assert forall i :: 0 <= i < |t| ==> (t'[i].IsDeletion() ==> t[i].IsDeletion());
  }

  /** Leases and manifests play no part in queue safety. */
  lemma RelabelKeepsSafe(t: Table, id: JobId, row: Row, key: string -> string)
    requires Safe(t, key) && id < |t|
    requires row.repo == t[id].repo && row.storeId == t[id].storeId && row.work.mode == t[id].work.mode
    requires row.status == t[id].status && row.attempts == t[id].attempts && row.maxAttempts == t[id].maxAttempts
    ensures Safe(t[id := row], key)
  {
  }

  lemma StepKeepsSafe(t: Table, e: Event, key: string -> string)
    requires Safe(t, key) && Enabled(t, e, key)
    ensures Safe(Apply(t, e), key)
  {
    match e
    case Enqueue(q, now) => EnqueueKeepsSafe(t, q, now, key);
    case Claim(id, owner, expires) => ClaimKeepsSafe(t, id, owner, expires, key);
    case Complete(id) => ReleaseKeepsSafe(t, id, if t[id].status.Cancelling? then Cancelled else Completed, t[id].attempts, key);
    case Fail(id) => FailKeepsSafeExactly(t, id, key);
    case MarkCancelled(id) => ReleaseKeepsSafe(t, id, Cancelled, t[id].attempts, key);
    case Reclaim(id, foreign) => ReclaimKeepsSafe(t, id, foreign, key);
    case RequestCancel(id) => CancelKeepsSafe(t, id, key);
    case CancelAll => CancelAllKeepsSafe(t, key);
    case Heartbeat(id, _, _) => if id < |t| { RelabelKeepsSafe(t, id, Apply(t, e)[id], key); }
    case Install(id, _) => if id < |t| { RelabelKeepsSafe(t, id, Apply(t, e)[id], key); }
    case Acknowledge(id, _) => if id < |t| { RelabelKeepsSafe(t, id, Apply(t, e)[id], key); }
  }

  // ---------------------------------------------------------------- whole runs

  ghost predicate Run(t: Table, events: seq<Event>, key: string -> string)
    decreases |events|
  {
    events == [] || (Enabled(t, events[0], key) && Run(Apply(t, events[0]), events[1..], key))
  }

  function After(t: Table, events: seq<Event>): Table
    decreases |events|
  {
    if events == [] then t else After(Apply(t, events[0]), events[1..])
  }

  /** From an empty queue no run of transactions ever reaches an unsafe table. */
  lemma EveryRunIsSafe(events: seq<Event>, key: string -> string)
    requires Run([], events, key)
    ensures Safe(After([], events), key)
  {
    RunKeepsSafe([], events, key);
  }

  lemma {:induction false} RunKeepsSafe(t: Table, events: seq<Event>, key: string -> string)
    requires Safe(t, key) && Run(t, events, key)
    ensures Safe(After(t, events), key)
    decreases |events|
  {
    if events != [] {
      StepKeepsSafe(t, events[0], key);
      RunKeepsSafe(Apply(t, events[0]), events[1..], key);
    }
  }

  // ---------------------------------------------------------------- where work goes

  /** Work is accepted by an executing row only when it is a deletion that finds the deletion already executing. */
  lemma EnqueueJoinsRunningExactly(t: Table, q: Request, now: int)
    requires Jobs.Enqueue(t, q, now).Ok?
    ensures var a := Jobs.Enqueue(t, q, now).value;
            a.id < |a.table| &&
            (a.table[a.id].status.Leased() <==>
             q.work.mode.DropIndex? && ActiveDeletion(t, q.repo).Some? && t[ActiveDeletion(t, q.repo).value].status.Leased())
  {
  }

  /** Ordinary work is refused exactly while a deletion is active. */
  lemma EnqueueRefusedExactly(t: Table, q: Request, now: int)
    ensures Jobs.Enqueue(t, q, now).Err? <==>
            !q.work.mode.DropIndex? && exists d: JobId :: d < |t| && t[d].repo == q.repo && t[d].IsDeletion()
  {
  }
}
