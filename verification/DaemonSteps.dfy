/** What each step of the daemon achieves for the repository it is about (src/scs/main.py, src/scs/indexing/runner.py). */
module DaemonSteps {
  import opened Outcome
  import opened Jobs
  import opened JobSafety
  import opened Registry
  import opened Daemon
  import opened DaemonSafety
  import JobStores
  import LeaseRecovery

  // ---------------------------------------------------------------- requests

  /** An explicit request to index a repository whose store is `gen`. */
  function IndexRequest(root: string, gen: string, mode: Mode): Request {
    Request(root, Some(StoreIdForRoot(root)), Some(gen), Work(mode, Payload({}, {}, None)), 3)
  }

  /** The store of an enrolled repository: activated, and with a database to open. */
  predicate Usable(h: Home, root: string) {
    && root in h.catalog && h.catalog[root].generation.Some?
    && GraphForBinding(h, root, Binding(StoreIdForRoot(root), h.catalog[root].generation.value)).Ok?
  }

  /** A request that meets no deletion is accepted, whatever it changed of the stores before. */
  lemma Admitted(w: World, h: Home, q: Request, now: int) returns (id: JobId)
    requires ActiveDeletion(w.table, q.repo).None?
    ensures var w' := Admit(w, h, q, now);
            w' == w.(table := w'.table, home := h) && JobStores.Accepts(w.table, w'.table, q, now, id)
  {
    JobStores.EnqueueAccepts(w.table, q, now);
    id := Jobs.Enqueue(w.table, q, now).value.id;
  }

  /**
  An index request enrols the repository and queues work for exactly the store it enrolled; beside a deletion, or when
  the store cannot be opened, it changes nothing.
  */
  lemma IndexIsQueued(w: World, root: string, force: bool, gen: string, opens: bool, now: int) returns (id: JobId)
    requires Coherent(w)
    ensures var w' := Step(w, Index(root, force, gen, opens, now));
      if ActiveDeletion(w.table, root).Some? || (!opens && !Unactivated(w.home, root) && !Usable(w.home, root)) then w' == w
      else
        && Usable(w'.home, root) && w'.flight == w.flight && w'.last == w.last
        && (if Unactivated(w.home, root) then w'.home.catalog[root].generation == Some(gen)
            else w'.home.catalog == w.home.catalog)
        && JobStores.Accepts(w.table, w'.table,
             IndexRequest(root, w'.home.catalog[root].generation.value, if force then ForceFull else Full), now, id)
  {
    id := 0;
    if ActiveDeletion(w.table, root).None? && Enrolled(w.home, root, gen, opens).Ok? {
      EnrolledIsUsable(w, root, gen, opens);
      var h := Enrolled(w.home, root, gen, opens).value;
      var q := BindingRequest(root, h.catalog[root], Work(if force then ForceFull else Full, NO_PAYLOAD));
      id := Admitted(w, h, q, now);
    }
  }

  lemma EnrolledIsUsable(w: World, root: string, gen: string, opens: bool)
    requires Coherent(w) && ActiveDeletion(w.table, root).None? && Enrolled(w.home, root, gen, opens).Ok?
    ensures var h := Enrolled(w.home, root, gen, opens).value;
      && Usable(h, root) && h.catalog[root].storeId == StoreIdForRoot(root)
      && (if Unactivated(w.home, root) then h.catalog[root].generation == Some(gen) else h.catalog == w.home.catalog)
  {
    EnrolledKeepsCoherent(w, root, gen, opens);
    if Unactivated(w.home, root) {
      EnrolPrefixKeepsCoherent(w, root, gen, 4);
      assert EnrolPlan(w.home, root, gen)[..4] == EnrolPlan(w.home, root, gen);
    }
  }

  /** Submitted work is queued for the store the catalog holds. */
  lemma SubmitIsQueued(w: World, root: string, work: Work, now: int) returns (id: JobId)
    requires Coherent(w) && Allowed(w, Submit(root, work, now))
    ensures var w' := Step(w, Submit(root, work, now));
      if ActiveDeletion(w.table, root).Some? then w' == w
      else
        && w' == w.(table := w'.table)
        && JobStores.Accepts(w.table, w'.table,
             Request(root, Some(StoreIdForRoot(root)), w.home.catalog[root].generation, work, 3), now, id)
  {
    id := 0;
    if ActiveDeletion(w.table, root).None? {
      id := Admitted(w, w.home, BindingRequest(root, w.home.catalog[root], work), now);
    }
  }

  /** Something of the repository is left: its catalog row, its store, or a retired store. */
  predicate Left(h: Home, root: string) {
    root in h.catalog || StoreIdForRoot(root) in h.live || exists t :: t in h.tombs && t.storeId == StoreIdForRoot(root)
  }

  /** What a deletion of the repository asks for. */
  function DropRequest(h: Home, root: string): Request {
    Request(root, Some(StoreIdForRoot(root)), if root in h.catalog then h.catalog[root].generation else None,
            Work(DropIndex, Payload({}, {}, None)), 3)
  }

  lemma TargetExactly(h: Home, root: string)
    requires CatalogIds(h)
    ensures DeletionTarget(h, root).Some? <==> Left(h, root)
    ensures DeletionTarget(h, root).Some? ==>
              BindingRequest(root, DeletionTarget(h, root).value, Work(DropIndex, NO_PAYLOAD)) == DropRequest(h, root)
  {
  }

  /** A deletion request is queued exactly when something of the repository is left, bound to what the catalog holds. */
  lemma DropIsQueued(w: World, root: string, now: int) returns (id: JobId)
    requires Coherent(w)
    ensures var w' := Step(w, Drop(root, now));
      if !Left(w.home, root) || ActiveDeletion(w.table, root).Some? then w' == w
      else
        && w' == w.(table := w'.table)
        && JobStores.Accepts(w.table, w'.table, DropRequest(w.home, root), now, id)
  {
    id := 0;
    TargetExactly(w.home, root);
    if Left(w.home, root) && ActiveDeletion(w.table, root).None? {
      id := Admitted(w, w.home, DropRequest(w.home, root), now);
    }
  }

  // ---------------------------------------------------------------- the job in flight

  /** Claiming leases the row and nothing else; the runner then holds it. */
  lemma ClaimIsHeld(w: World, id: JobId, owner: string, expires: int)
    requires Coherent(w) && Allowed(w, ClaimJob(id, owner, expires))
    ensures var w' := Step(w, ClaimJob(id, owner, expires));
      && w' == w.(table := w'.table, flight := Some(Flight(id, Stage.Claimed)))
      && JobStores.OnlyRow(w.table, w'.table, id)
      && w'.table[id] == w.table[id].(status := Running, leaseOwner := Some(owner), leaseExpires := Some(expires))
  {
  }

  /** A run reports how it went and touches neither queue nor stores. */
  lemma RunIsRecorded(w: World, clean: bool)
    requires Coherent(w) && Allowed(w, RunIndex(clean))
    ensures var w' := Step(w, RunIndex(clean));
      && w' == w.(flight := Some(Flight(w.flight.value.id, Returned(clean))), last := w'.last)
      && Job(w).generation.Some?
      && w'.last == w.last[(Job(w).repo, Job(w).generation.value) := Ended(clean)]
  {
  }

  /** A deletion carried to its end leaves nothing of the repository; one that is cut short reports that. */
  lemma RunDropForgets(w: World, order: seq<Tomb>, k: nat)
    requires Coherent(w) && Allowed(w, RunDrop(order, k))
    ensures var w' := Step(w, RunDrop(order, k));
      var d := DeletionOf(w.flight.value.id, Job(w));
      && w' == w.(home := w'.home, flight := Some(Flight(w.flight.value.id, Returned(k == |DropPlan(w.home, d, order)|))))
      && (w'.flight.value.stage == Returned(true) ==> !Left(w'.home, Job(w).repo))
      && (forall other :: other in w.home.catalog && other != Job(w).repo ==>
            other in w'.home.catalog && w'.home.catalog[other] == w.home.catalog[other])
  {
    var id := w.flight.value.id;
    var d := DeletionOf(id, Job(w));
    DeletionInFlightRuns(w, id);
    PlanDue(w.home, d, order);
    var plan := DropPlan(w.home, d, order);
    if k == |plan| {
      assert plan[..k] == plan;
    }
    forall other | other in w.home.catalog && other != Job(w).repo
      ensures var h := ApplyDrops(w.home, d, plan[..k]); other in h.catalog && h.catalog[other] == w.home.catalog[other]
    {
      OtherDropsKeepRow(w.home, d, plan[..k], other);
    }
  }

  /** A finished job is closed, completed unless it was to be cancelled, and the runner is free. */
  lemma FinishCloses(w: World)
    requires Coherent(w) && Allowed(w, Finish)
    ensures var w', id := Step(w, Finish), w.flight.value.id;
      && w' == w.(table := w'.table, flight := None) && JobStores.OnlyRow(w.table, w'.table, id)
      && JobStores.SameJob(w.table[id], w'.table[id]) && JobStores.Released(w'.table[id])
      && w'.table[id].status == (if w.table[id].status == Cancelling then Cancelled else Completed)
      && w'.table[id].attempts == w.table[id].attempts
  {
  }

  lemma StopCloses(w: World)
    requires Coherent(w) && Allowed(w, StopCancelled)
    ensures var w', id := Step(w, StopCancelled), w.flight.value.id;
      && w' == w.(table := w'.table, flight := None) && JobStores.OnlyRow(w.table, w'.table, id)
      && JobStores.SameJob(w.table[id], w'.table[id]) && JobStores.Released(w'.table[id])
      && w'.table[id].status == Cancelled && w'.table[id].attempts == w.table[id].attempts
  {
  }

  /** A reported failure is retried, by the row or by its follow-up, until the attempts are spent. */
  lemma FailureIsRetried(w: World) returns (watched: JobId)
    requires Coherent(w) && Allowed(w, ReportFailure)
    ensures var w', id := Step(w, ReportFailure), w.flight.value.id;
      && w' == w.(table := w'.table, flight := None) && |w'.table| == |w.table|
      && JobStores.Survives(w.table, w'.table, id, watched)
      && w'.table[id].attempts == w.table[id].attempts + 1 && JobStores.Released(w'.table[id])
  {
    var id := w.flight.value.id;
    JobStores.FailureSurvives(w.table, id);
    JobStores.FailureReleases(w.table, id);
    watched := if FailHeir(w.table, id).Some? then FailHeir(w.table, id).value else id;
  }

  /** A crash forgets the job in flight and loses nothing durable; every leased row may then be taken back. */
  lemma CrashForgets(w: World, id: JobId, foreign: bool)
    requires id < |w.table| && w.table[id].status.Leased()
    ensures Step(w, Crash) == w.(flight := None) && Allowed(Step(w, Crash), Recover(id, foreign))
  {
  }

  /** Recovery takes a leased row back as a pass over that row does, and touches nothing but the queue. */
  lemma RecoverTakesBack(w: World, id: JobId, r: Recovery)
    requires Safe(w.table, StoreIdForRoot) && id < |w.table| && w.table[id].status.Leased()
    ensures var w' := Step(w, Recover(id, r.Foreign(w.table[id])));
            w' == w.(table := w'.table) && LeaseRecovery.Recovered(w.table, w'.table, [id], r)
  {
    RecoverOne(w.table, id, r);
    assert Step(w, Recover(id, r.Foreign(w.table[id]))).table == ReclaimRow(w.table, id, r.Foreign(w.table[id]));
  }

  lemma RecoverOne(t: Table, id: JobId, r: Recovery)
    requires Safe(t, StoreIdForRoot) && id < |t| && t[id].status.Leased()
    ensures LeaseRecovery.Recovered(t, ReclaimRow(t, id, r.Foreign(t[id])), [id], r)
  {
    assert [id][..0] == [];
    LeaseRecovery.PassRecovers(t, [id], r, StoreIdForRoot);
    assert ReclaimAll(t, [id][..0], r) == t;
  }
}
