/** The store object itself: every transaction carried out in place on its table of rows. */
module JobStores {
  import opened Outcome
  import opened Jobs
  import opened JobSafety
  import opened Checkpoint
  import opened LeaseRecovery
  import opened MergeLaws

  /** The stale rows of a table, each once, oldest first. */
  ghost predicate StaleOrder(t: Table, ids: seq<JobId>, r: Recovery) {
    && (forall i :: 0 <= i < |ids| ==> ids[i] < |t| && r.Stale(t[ids[i]]))
    && (forall j: JobId :: j < |t| && r.Stale(t[j]) ==> j in ids)
    && (forall i, j :: 0 <= i < j < |ids| ==> ids[i] != ids[j])
    && (forall i, j :: 0 <= i < j < |ids| ==> t[ids[i]].createdAt <= t[ids[j]].createdAt)
  }

  /** Recovery touches, besides the stale rows, only waiting rows that inherit work. */
  lemma {:induction false} ReclaimLeavesLeased(t: Table, ids: seq<JobId>, r: Recovery, other: JobId)
    requires forall i :: 0 <= i < |ids| ==> ids[i] < |t|
    requires other < |t| && t[other].status.Leased() && other !in ids
    ensures ReclaimAll(t, ids, r)[other] == t[other]
  {
    if ids != [] {
      ReclaimLeavesLeased(t, ids[..|ids| - 1], r, other);
    }
  }

  /** A whole recovery pass over distinct leased rows keeps the table safe. */
  lemma {:induction false} ReclaimAllKeepsSafe(t: Table, ids: seq<JobId>, r: Recovery, key: string -> string)
    requires Safe(t, key)
    requires forall i :: 0 <= i < |ids| ==> ids[i] < |t| && t[ids[i]].status.Leased()
    requires forall i, j :: 0 <= i < j < |ids| ==> ids[i] != ids[j]
    ensures Safe(ReclaimAll(t, ids, r), key)
  {
    if ids != [] {
      var init, id := ids[..|ids| - 1], ids[|ids| - 1];
      ReclaimAllKeepsSafe(t, init, r, key);
      ReclaimLeavesLeased(t, init, r, id);
      var before := ReclaimAll(t, init, r);
      ReclaimKeepsSafe(before, id, r.Foreign(before[id]), key);
    }
  }

  lemma PassKeepsSafe(t: Table, ids: seq<JobId>, r: Recovery, key: string -> string)
    requires StaleOrder(t, ids, r)
    ensures Safe(t, key) ==> Safe(ReclaimAll(t, ids, r), key)
  {
    if Safe(t, key) {
      ReclaimAllKeepsSafe(t, ids, r, key);
    }
  }

  lemma ReclaimAllStep(t: Table, ids: seq<JobId>, i: nat, r: Recovery)
    requires i < |ids| && forall k :: 0 <= k < |ids| ==> ids[k] < |t|
    ensures var before := ReclaimAll(t, ids[..i], r);
            ReclaimAll(t, ids[..i + 1], r) == ReclaimRow(before, ids[i], r.Foreign(before[ids[i]]))
  {
    assert ids[..i + 1][..i] == ids[..i];
  }

  // ---------------------------------------------------------------- what callers rely on

  /** At most one row differs. */
  ghost predicate OnlyRow(before: Table, after: Table, id: JobId) {
    |after| == |before| && forall j: JobId :: j < |before| && j != id ==> after[j] == before[j]
  }

  /** The job itself is untouched; only how far it has come may differ. */
  predicate SameJob(before: Row, after: Row) {
    after == before.(status := after.status, attempts := after.attempts,
                     leaseOwner := after.leaseOwner, leaseExpires := after.leaseExpires)
  }

  /** An accepted request is covered by an active row of its repository, and nothing accepted before is lost. */
  ghost predicate Accepts(before: Table, after: Table, q: Request, now: int, id: JobId) {
    && |before| <= |after| && id < |after|
    && (forall j: JobId :: j < |before| && j != id ==> after[j] == before[j])
    && after[id].repo == q.repo && after[id].status.Active() && after[id].work.Covers(q.work)
    && (if id < |before| then
          && |after| == |before| && before[id].status.Active()
          && after[id].work.Covers(before[id].work)
          && (if before[id].work.mode == DropIndex then after[id] == before[id]
              else
                && before[id].status.Waiting()
                && after[id] == before[id].(work := Merge(before[id].work, q.work), status := Queued))
        else
          && |after| == |before| + 1
          && after[id] == Row(q.repo, q.storeId, q.generation, q.work, Queued, 0, q.maxAttempts, None, None, now)
          && forall j: JobId :: j < |before| && before[j].repo == q.repo ==> !before[j].status.Waiting() && !before[j].IsDeletion())
  }

  /** Other work comes before cleanups, and of the same kind the older row comes first. */
  predicate Precedes(a: Row, b: Row) {
    || (a.work.mode != Cleanup && b.work.mode == Cleanup)
    || ((a.work.mode == Cleanup <==> b.work.mode == Cleanup) && a.createdAt <= b.createdAt)
  }

  /** A waiting row whose store no job in progress works on; a row without a store stands for its repository. */
  ghost predicate MayStart(t: Table, id: JobId) {
    && id < |t|
    && (t[id].status == Queued || t[id].status == Retrying)
    && forall j: JobId :: j < |t| && (t[j].status == Running || t[j].status == Cancelling) ==>
         (if t[j].storeId.Some? then t[j].storeId.value else t[j].repo)
         != (if t[id].storeId.Some? then t[id].storeId.value else t[id].repo)
  }

  lemma ClaimableExactly(t: Table)
    ensures forall id: JobId :: Claimable(t, id) <==> MayStart(t, id)
  {
  }

  /** The row holds no lease. */
  predicate Released(row: Row) {
    !row.status.Leased() && row.leaseOwner.None? && row.leaseExpires.None?
  }

  /** Work that waited is cancelled, and work in progress is on its way out with its lease; nothing else changes. */
  predicate Stopped(before: Row, after: Row) {
    if before.work.mode != DropIndex && before.status.Waiting() then after.status == Cancelled && Released(after)
    else if before.work.mode != DropIndex && before.status == Running then after == before.(status := Cancelling)
    else after == before
  }

  ghost predicate Deleting(t: Table, repo: string) {
    exists d: JobId :: d < |t| && t[d].repo == repo && t[d].IsDeletion()
  }

  /** A leased row whose manifest has all of these paths. */
  predicate MayAcknowledge(row: Row, paths: set<string>) {
    row.status.Leased() && row.work.payload.snapshot.Some? && paths <= row.work.payload.snapshot.value.files.Keys
  }

  /** No row holds a lease on the store of this one. */
  ghost predicate FreeStore(t: Table, id: JobId)
    requires id < |t|
  {
    forall j: JobId :: j < |t| && t[j].status.Leased() ==> t[j].StoreKey() != t[id].StoreKey()
  }

  lemma EnqueueAccepts(t: Table, q: Request, now: int)
    requires Jobs.Enqueue(t, q, now).Ok?
    ensures Accepts(t, Jobs.Enqueue(t, q, now).value.table, q, now, Jobs.Enqueue(t, q, now).value.id)
  {
    var w := OtherWaiting(t, q.repo, |t|);
    if ActiveDeletion(t, q.repo).None? && w.Some? {
      MergeIsUpperBound(t[w.value].work, q.work);
    }
  }

  /**
  The work of a reported row survives, unless its attempts are spent: the row `w` to watch covers it and waits.  That
  is the row itself, or a follow-up if one waits, and no other row is touched.
  */
  ghost predicate Survives(before: Table, after: Table, id: JobId, w: JobId)
    requires id < |before| == |after|
  {
    var spent := before[id].attempts + 1 >= before[id].maxAttempts;
    && w < |after|
    && (forall j: JobId :: j < |before| && j != id && j != w ==> after[j] == before[j])
    && after[w].repo == before[id].repo && after[w].work.Covers(before[id].work)
    && (w == id ==> after[id].status == if spent then Failed else Queued)
    && (w != id ==>
        && !spent && FollowsUp(before, w, id) && after[id].status.Cancelled?
        && after[w] == before[w].(work := Merge(before[w].work, before[id].work)) && after[w].work.Covers(before[w].work))
    && (!spent && (exists h: JobId :: FollowsUp(before, h, id)) ==> w != id)
  }

  lemma FailureSurvives(t: Table, id: JobId)
    requires id < |t|
    ensures var heir := FailHeir(t, id);
      Survives(t, Jobs.FailOrRetry(t, id), id, if heir.Some? then heir.value else id)
  {
    var heir := FailHeir(t, id);
    if heir.Some? {
      MergeIsUpperBound(t[heir.value].work, t[id].work);
    }
  }

  lemma FailureReleases(t: Table, id: JobId)
    requires id < |t|
    ensures var after := Jobs.FailOrRetry(t, id);
            && |after| == |t| && SameJob(t[id], after[id])
            && after[id].attempts == t[id].attempts + 1 && Released(after[id])
  {
  }

  lemma AcknowledgeShrinksTargets(t: Table, id: JobId, paths: set<string>)
    requires AcknowledgeFiles(t, id, paths).Ok? && t[id].work.payload.snapshot.Some?
    ensures var before, after := t[id].work.payload.snapshot.value, AcknowledgeFiles(t, id, paths).value[id].work.payload.snapshot;
      after.Some? && SameManifest(before, after.value) && Targets(after.value) == Targets(before) - paths
  {
  }

  lemma CompletionFreesStore(t: Table, id: JobId, status: Status, key: string -> string)
    requires Safe(t, key) && id < |t| && t[id].status.Leased() && !status.Leased()
    ensures FreeStore(t[id := t[id].Released(status, t[id].attempts)], id)
  {
  }

  class JobStore {
    var rows: Table

    /** The store key of a repository. */
    ghost const key: string -> string

    ghost predicate Valid()
      reads this
    {
      Safe(rows, key)
    }

    constructor (ghost key: string -> string)
      ensures rows == [] && this.key == key && Valid()
    {
      rows := [];
      this.key := key;
    }

    method Enqueue(q: Request, now: int) returns (r: Result<JobId, QueueError>)
      modifies this
      ensures r.Err? <==> !q.work.mode.DropIndex? && Deleting(old(rows), q.repo)
      ensures r.Err? ==> rows == old(rows)
      ensures r.Ok? ==> Accepts(old(rows), rows, q, now, r.value)
      ensures rows == Apply(old(rows), JobSafety.Enqueue(q, now))
      ensures old(Valid()) && Enabled(old(rows), JobSafety.Enqueue(q, now), key) ==> Valid()
    {
      EnqueueRefusedExactly(rows, q, now);
      if Jobs.Enqueue(rows, q, now).Ok? {
        EnqueueAccepts(rows, q, now);
      }
      if Valid() && Enabled(rows, JobSafety.Enqueue(q, now), key) {
        EnqueueKeepsSafe(rows, q, now, key);
      }
      var deletion := ActiveDeletion(rows, q.repo);
      if deletion.Some? {
        if q.work.mode.DropIndex? {
          return Ok(deletion.value);
        }
        return Err(DeletionInProgress);
      }
      var existing := OtherWaiting(rows, q.repo, |rows|);
      if existing.Some? {
        var w := existing.value;
        rows := rows[w := rows[w].(work := Merge(rows[w].work, q.work), status := Queued)];
        return Ok(w);
      }
      rows := rows + [NewRow(q, now)];
      r := Ok(|rows| - 1);
    }

    method ClaimNext(owner: string, expires: int) returns (claimed: Option<JobId>)
      modifies this
      ensures claimed.None? ==> rows == old(rows) && forall i: JobId :: i < |rows| ==> !MayStart(rows, i)
      ensures claimed.Some? ==> claimed.value < |rows| && OnlyRow(old(rows), rows, claimed.value)
      ensures claimed.Some? ==>
                rows[claimed.value] == old(rows)[claimed.value].(status := Running, leaseOwner := Some(owner), leaseExpires := Some(expires))
      ensures claimed.Some? ==> MayStart(old(rows), claimed.value)
      ensures claimed.Some? ==> forall j: JobId :: MayStart(old(rows), j) ==> Precedes(old(rows)[claimed.value], old(rows)[j])
      ensures claimed.Some? ==> rows == Apply(old(rows), JobSafety.Claim(claimed.value, owner, expires))
      ensures old(Valid()) ==> Valid()
    {
      claimed := None;
      ClaimableExactly(rows);
      var i: nat := 0;
      while i < |rows|
        invariant i <= |rows| && rows == old(rows)
        invariant claimed.None? ==> forall j: JobId :: j < i ==> !Claimable(rows, j)
        invariant claimed.Some? ==> claimed.value < i && Claimable(rows, claimed.value)
        invariant claimed.Some? ==>
                    forall j: JobId :: j < i && Claimable(rows, j) ==> NoLater(rows[claimed.value], rows[j])
      {
        if Claimable(rows, i) && (claimed.None? || !NoLater(rows[claimed.value], rows[i])) {
          claimed := Some(i);
        }
        i := i + 1;
      }
      if claimed.Some? {
        var id := claimed.value;
        if Valid() {
          ClaimKeepsSafe(rows, id, owner, expires, key);
        }
        rows := rows[id := rows[id].(status := Running, leaseOwner := Some(owner), leaseExpires := Some(expires))];
      }
    }

    /** A renewed lease cannot be taken back by its owner before it expires. */
    method Heartbeat(id: JobId, owner: string, expires: int)
      modifies this
      ensures OnlyRow(old(rows), rows, id)
      ensures id < |rows| && rows[id].status.Leased() ==>
                rows[id] == old(rows)[id].(leaseOwner := Some(owner), leaseExpires := Some(expires))
      ensures id < |rows| && rows[id].status.Leased() ==>
        forall r: Recovery :: r.owner == Some(owner) && r.now <= expires ==> !r.Stale(rows[id])
      ensures id < |rows| && !rows[id].status.Leased() ==> rows[id] == old(rows)[id]
      ensures rows == Apply(old(rows), JobSafety.Heartbeat(id, owner, expires))
      ensures old(Valid()) ==> Valid()
    {
      if Valid() {
        StepKeepsSafe(rows, JobSafety.Heartbeat(id, owner, expires), key);
      }
      if id < |rows| && rows[id].status.Leased() {
        rows := rows[id := rows[id].(leaseOwner := Some(owner), leaseExpires := Some(expires))];
      }
    }

    /** The first valid manifest is frozen as given; later ones change nothing. */
    method InstallForceFullSnapshot(id: JobId, files: seq<FileRecord>) returns (r: Result<Row, QueueError>)
      modifies this
      ensures r.Err? <==> !WellFormedManifest(files) || id >= |old(rows)| || !old(rows)[id].work.mode.ForceFull?
      ensures r.Err? ==> rows == old(rows)
      ensures r.Ok? ==> OnlyRow(old(rows), rows, id) && r.value == rows[id] && rows[id] == old(rows)[id].(work := rows[id].work)
      ensures r.Ok? && old(rows)[id].work.payload.snapshot.Some? ==> rows[id].work == old(rows)[id].work
      ensures r.Ok? && old(rows)[id].work.payload.snapshot.None? ==>
                && rows[id].work.mode.ForceFull? && rows[id].work.payload.snapshot.Some?
                && Freezes(files, rows[id].work.payload.snapshot.value.files)
                && rows[id].work.payload.snapshot.value.storeId == rows[id].storeId
                && rows[id].work.payload.snapshot.value.generation == rows[id].generation
                && rows[id].work.payload.files == old(rows)[id].work.payload.files
                && rows[id].work.payload.deleted == old(rows)[id].work.payload.deleted
      ensures rows == Apply(old(rows), Install(id, files))
      ensures old(Valid()) ==> Valid()
    {
      FreezeFilesFaithful(files);
      if Valid() {
        StepKeepsSafe(rows, Install(id, files), key);
      }
      var frozen := FreezeFiles(files);
      if frozen.Err? { return Err(frozen.error); }
      if id >= |rows| { return Err(UnknownJob); }
      var row := rows[id];
      if !row.work.mode.ForceFull? { return Err(NotForceFull); }
      if row.work.payload.snapshot.None? {
        var payload := row.work.payload.(snapshot := Some(Snapshot(row.storeId, row.generation, frozen.value)));
        rows := rows[id := row.(work := row.work.(payload := payload))];
      }
      r := Ok(rows[id]);
    }

    /** Acknowledging removes exactly the given paths from what is left to do, and never touches what was frozen. */
    method AcknowledgeForceFullSnapshotFiles(id: JobId, paths: set<string>) returns (r: Result<Row, QueueError>)
      modifies this
      ensures r.Err? <==> id >= |old(rows)| || (paths != {} && !MayAcknowledge(old(rows)[id], paths))
      ensures r.Err? ==> rows == old(rows)
      ensures r.Ok? ==> OnlyRow(old(rows), rows, id) && r.value == rows[id] && rows[id] == old(rows)[id].(work := rows[id].work)
      ensures r.Ok? && old(rows)[id].work.payload.snapshot.Some? ==>
                && rows[id].work.payload.snapshot.Some?
                && var before, after := old(rows)[id].work.payload.snapshot.value, rows[id].work.payload.snapshot.value;
                   SameManifest(before, after) && Targets(after) == Targets(before) - paths
      ensures rows == Apply(old(rows), Acknowledge(id, paths))
      ensures old(Valid()) ==> Valid()
    {
      if AcknowledgeFiles(rows, id, paths).Ok? && rows[id].work.payload.snapshot.Some? {
        AcknowledgeShrinksTargets(rows, id, paths);
      }
      if Valid() {
        StepKeepsSafe(rows, Acknowledge(id, paths), key);
      }
      if id >= |rows| { return Err(UnknownJob); }
      var row := rows[id];
      if paths == {} { return Ok(row); }
      if row.work.payload.snapshot.None? { return Err(NoSnapshot); }
      var snapshot := row.work.payload.snapshot.value;
      if !(paths <= snapshot.files.Keys) { return Err(UnknownPath); }
      if !row.status.Leased() { return Err(NoLongerActive); }
      var payload := row.work.payload.(snapshot := Some(snapshot.(files := Acknowledged(snapshot.files, paths))));
      rows := rows[id := row.(work := row.work.(payload := payload))];
      r := Ok(rows[id]);
    }

    /** A finished job keeps its content, reports how it ended, and leaves its store free for the next one. */
    method Complete(id: JobId) returns (r: Result<Row, QueueError>)
      modifies this
      ensures r.Err? <==> id >= |old(rows)|
      ensures r.Err? ==> rows == old(rows)
      ensures r.Ok? ==> OnlyRow(old(rows), rows, id) && r.value == rows[id] && SameJob(old(rows)[id], rows[id])
      ensures r.Ok? ==> !rows[id].status.Active() && Released(rows[id]) && rows[id].attempts == old(rows)[id].attempts
      ensures r.Ok? ==> (rows[id].status.Completed? <==> !old(rows)[id].status.Cancelling?)
      ensures r.Ok? ==> rows == Apply(old(rows), JobSafety.Complete(id))
      ensures old(Valid()) && r.Ok? && old(rows)[id].status.Leased() ==> Valid() && FreeStore(rows, id)
    {
      if id >= |rows| { return Err(UnknownJob); }
      var status := if rows[id].status.Cancelling? then Cancelled else Completed;
      if Valid() && rows[id].status.Leased() {
        StepKeepsSafe(rows, JobSafety.Complete(id), key);
        CompletionFreesStore(rows, id, status, key);
      }
      rows := rows[id := rows[id].(status := status, leaseOwner := None, leaseExpires := None)];
      r := Ok(rows[id]);
    }

    /**
    Returns the row the caller should watch: the row itself, or the follow-up that took its work over.  The queue
    stays safe exactly under the condition of JobSafety.FailKeepsSafeExactly.
    */
    method FailOrRetry(id: JobId) returns (r: Result<Row, QueueError>)
      modifies this
      ensures r.Err? <==> id >= |old(rows)|
      ensures r.Err? ==> rows == old(rows)
      ensures r.Ok? ==> |rows| == |old(rows)| && SameJob(old(rows)[id], rows[id])
      ensures r.Ok? ==> rows[id].attempts == old(rows)[id].attempts + 1 && Released(rows[id])
      ensures r.Ok? ==> exists w: JobId :: Survives(old(rows), rows, id, w) && rows[w] == r.value
      ensures id < |old(rows)| ==> rows == Apply(old(rows), Fail(id))
      ensures old(Valid()) && r.Ok? ==> (Valid() <==> MayFail(old(rows), id))
    {
      if id >= |rows| { return Err(UnknownJob); }
      ghost var before := rows;
      var watched := id;
      var attempts := rows[id].attempts + 1;
      if attempts >= rows[id].maxAttempts {
        rows := rows[id := rows[id].Released(Failed, attempts)];
      } else {
        var queued := OtherWaiting(rows, rows[id].repo, id);
        if queued.Some? {
          watched := queued.value;
          HandOver(id, watched, attempts);
        } else {
          rows := rows[id := rows[id].Released(Queued, attempts)];
        }
      }
      assert rows == Jobs.FailOrRetry(before, id);
      FailureSurvives(before, id);
      FailureReleases(before, id);
      if Safe(before, key) {
        FailKeepsSafeExactly(before, id, key);
      }
      r := Ok(rows[watched]);
    }

    /** Merge the work of a row into its follow-up and close the row. */
    method HandOver(id: JobId, heir: JobId, attempts: int)
      requires id < |rows| && heir < |rows|
      modifies this
      ensures rows == MergeInto(old(rows), id, heir, attempts)
    {
      rows := rows[heir := rows[heir].(work := Merge(rows[heir].work, rows[id].work))];
      rows := rows[id := rows[id].Released(Cancelled, attempts)];
    }

    /** After a cancel request the job will not be claimed, and one that was running is on its way out. */
    method RequestCancel(id: JobId) returns (r: Result<Row, QueueError>)
      modifies this
      ensures r.Err? <==> id >= |old(rows)|
      ensures r.Err? ==> rows == old(rows)
      ensures r.Ok? ==> OnlyRow(old(rows), rows, id) && r.value == rows[id] && rows[id] == old(rows)[id].(status := rows[id].status)
      ensures r.Ok? && old(rows)[id].status.Waiting() ==> rows[id].status == Cancelled
      ensures r.Ok? && old(rows)[id].status == Running ==> rows[id].status == Cancelling
      ensures r.Ok? && !old(rows)[id].status.Waiting() && old(rows)[id].status != Running ==> rows == old(rows)
      ensures r.Ok? ==> !MayStart(rows, id)
      ensures r.Ok? ==> rows == Apply(old(rows), JobSafety.RequestCancel(id))
      ensures old(Valid()) ==> Valid()
    {
      if id >= |rows| { return Err(UnknownJob); }
      if Valid() {
        CancelKeepsSafe(rows, id, key);
      }
      if rows[id].status.Waiting() {
        rows := rows[id := rows[id].(status := Cancelled)];
      } else if rows[id].status.Running? {
        rows := rows[id := rows[id].(status := Cancelling)];
      }
      r := Ok(rows[id]);
    }

    /** Nothing but deletions will be claimed any more; what runs is on its way out, and deletions go on as they were. */
    method RequestCancelAll()
      modifies this
      ensures |rows| == |old(rows)|
      ensures forall i: JobId :: i < |rows| ==> SameJob(old(rows)[i], rows[i]) && rows[i].attempts == old(rows)[i].attempts
      ensures forall i: JobId :: i < |rows| && rows[i].work.mode.DropIndex? ==> rows[i] == old(rows)[i]
      ensures forall i: JobId :: i < |rows| ==> Stopped(old(rows)[i], rows[i])
      ensures rows == Apply(old(rows), CancelAll)
      ensures old(Valid()) ==> Valid()
    {
      if Valid() {
        CancelAllKeepsSafe(rows, key);
      }
      var before := rows;
      rows := seq(|before|, i requires 0 <= i < |before| => CancelRow(before[i]));
    }

    /** A cancelled job keeps its content and leaves its store free for the next one. */
    method MarkCancelled(id: JobId) returns (r: Result<Row, QueueError>)
      modifies this
      ensures r.Err? <==> id >= |old(rows)|
      ensures r.Err? ==> rows == old(rows)
      ensures r.Ok? ==> OnlyRow(old(rows), rows, id) && r.value == rows[id] && SameJob(old(rows)[id], rows[id])
      ensures r.Ok? ==> rows[id].status.Cancelled? && Released(rows[id]) && rows[id].attempts == old(rows)[id].attempts
      ensures r.Ok? ==> rows == Apply(old(rows), JobSafety.MarkCancelled(id))
      ensures old(Valid()) && r.Ok? ==> Valid()
      ensures old(Valid()) && r.Ok? && old(rows)[id].status.Leased() ==> FreeStore(rows, id)
    {
      if id >= |rows| { return Err(UnknownJob); }
      if Valid() {
        ReleaseKeepsSafe(rows, id, Cancelled, rows[id].attempts, key);
        if rows[id].status.Leased() {
          CompletionFreesStore(rows, id, Cancelled, key);
        }
      }
      rows := rows[id := rows[id].Released(Cancelled, rows[id].attempts)];
      r := Ok(rows[id]);
    }

    method TakeBack(id: JobId, foreign: bool)
      requires id < |rows|
      modifies this
      ensures rows == ReclaimRow(old(rows), id, foreign)
    {
      var queued := ReclaimHeir(rows, id);
      var attempts := rows[id].attempts;
      if queued.Some? {
        HandOver(id, queued.value, attempts);
        return;
      }
      if !foreign {
        attempts := attempts + 1;
      }
      var status := if attempts >= rows[id].maxAttempts then Failed else Queued;
      rows := rows[id := rows[id].Released(status, attempts)];
    }

    /** Select the stale rows once, oldest first, then take them back one after another. */
    method ReclaimStaleRunning(recovery: Recovery) returns (ids: seq<JobId>)
      modifies this
      ensures StaleOrder(old(rows), ids, recovery)
      ensures rows == ReclaimAll(old(rows), ids, recovery)
      ensures old(Valid()) ==> Valid() && Recovered(old(rows), rows, ids, recovery)
    {
      ids := SelectStale(rows, recovery);
      var i: nat := 0;
      while i < |ids|
        invariant i <= |ids| && StaleOrder(old(rows), ids, recovery)
        invariant rows == ReclaimAll(old(rows), ids[..i], recovery)
      {
        var id := ids[i];
        ReclaimAllStep(old(rows), ids, i, recovery);
        var foreign := recovery.Foreign(rows[id]);
        TakeBack(id, foreign);
        i := i + 1;
      }
      assert ids[..|ids|] == ids;
      PassKeepsSafe(old(rows), ids, recovery, key);
      if old(Valid()) {
        PassRecovers(old(rows), ids, recovery, key);
      }
    }
  }

  /** The rows selected so far come before the ones still to select. */
  ghost predicate Selecting(t: Table, ids: seq<JobId>, todo: set<JobId>, r: Recovery) {
    && (forall i: JobId :: i in todo ==> i < |t| && r.Stale(t[i]) && i !in ids)
    && (forall i :: 0 <= i < |ids| ==> ids[i] < |t| && r.Stale(t[ids[i]]))
    && (forall j: JobId :: j < |t| && r.Stale(t[j]) ==> j in ids || j in todo)
    && (forall i, j :: 0 <= i < j < |ids| ==> ids[i] != ids[j])
    && (forall i, j :: 0 <= i < j < |ids| ==> t[ids[i]].createdAt <= t[ids[j]].createdAt)
    && (forall i: nat, j: JobId :: i < |ids| && j in todo ==> t[ids[i]].createdAt <= t[j].createdAt)
  }

  lemma SelectOne(t: Table, ids: seq<JobId>, todo: set<JobId>, r: Recovery, oldest: JobId)
    requires Selecting(t, ids, todo, r) && oldest in todo
    requires forall j: JobId :: j in todo ==> t[oldest].createdAt <= t[j].createdAt
    ensures Selecting(t, ids + [oldest], todo - {oldest}, r)
  {
  }

  /** Selection of the stale rows in the order of their creation. */
  method SelectStale(t: Table, r: Recovery) returns (ids: seq<JobId>)
    ensures StaleOrder(t, ids, r)
  {
    var todo: set<JobId> := set i: JobId | i < |t| && r.Stale(t[i]);
    ids := [];
    while todo != {}
      invariant Selecting(t, ids, todo, r)
      decreases |todo|
    {
      OldestExists(t, todo);
      var oldest :| oldest in todo && forall j: JobId :: j in todo ==> t[oldest].createdAt <= t[j].createdAt;
      SelectOne(t, ids, todo, r, oldest);
      ids := ids + [oldest];
      todo := todo - {oldest};
    }
  }

  lemma {:induction false} OldestExists(t: Table, ids: set<JobId>)
    requires ids != {} && forall i: JobId :: i in ids ==> i < |t|
    ensures exists i: JobId :: i in ids && forall j: JobId :: j in ids ==> t[i].createdAt <= t[j].createdAt
    decreases |ids|
  {
    var i: JobId :| i in ids;
    var rest := ids - {i};
    if rest == {} {
      assert ids == {i};
    } else {
      OldestExists(t, rest);
      var o: JobId :| o in rest && forall j: JobId :: j in rest ==> t[o].createdAt <= t[j].createdAt;
      var least := if t[i].createdAt <= t[o].createdAt then i else o;
      assert forall j: JobId :: j in ids ==> j == i || j in rest;
      assert least in ids && forall j: JobId :: j in ids ==> t[least].createdAt <= t[j].createdAt;
    }
  }
}
