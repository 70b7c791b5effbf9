/** Every run of the daemon stays coherent: bindings agree, deletions can finish, readiness is truthful. */
module DaemonSafety {
  import opened Outcome
  import opened Jobs
  import opened JobSafety
  import opened Registry
  import opened Daemon

  // ---------------------------------------------------------------- queue-only steps

  /** Rows keep their repository, binding and kind, and are active only if they were before. */
  ghost predicate SameKinds(t: Table, t': Table) {
    && |t'| == |t|
    && forall i :: 0 <= i < |t| ==>
         && t'[i].repo == t[i].repo && t'[i].storeId == t[i].storeId && t'[i].generation == t[i].generation
         && t'[i].work.mode.DropIndex? == t[i].work.mode.DropIndex?
         && (t'[i].status.Active() ==> t[i].status.Active())
  }

  lemma RowKeepsKinds(t: Table, id: JobId, row: Row)
    requires id < |t|
    requires row.repo == t[id].repo && row.storeId == t[id].storeId && row.generation == t[id].generation
    requires row.work.mode == t[id].work.mode && (row.status.Active() ==> t[id].status.Active())
    ensures SameKinds(t, t[id := row])
  {
  }

  lemma HandOverKeepsKinds(t: Table, id: JobId, e: Event)
    requires Safe(t, StoreIdForRoot) && id < |t| && t[id].status.Leased()
    requires e == Fail(id) || e == Reclaim(id, true) || e == Reclaim(id, false)
    ensures SameKinds(t, Apply(t, e))
  {
    var heir := if e.Fail? then FailHeir(t, id) else ReclaimHeir(t, id);
    if heir.Some? {
      MergeKeepsKinds(t, id, heir.value, if e.Fail? then t[id].attempts + 1 else t[id].attempts);
    } else {
      RowKeepsKinds(t, id, Apply(t, e)[id]);
    }
  }

  lemma CancelAllKeepsKinds(t: Table)
    ensures SameKinds(t, Jobs.CancelAll(t))
  {
    assert forall i :: 0 <= i < |t| ==> Jobs.CancelAll(t)[i] == CancelRow(t[i]);
  }

  lemma InstallKeepsKinds(t: Table, id: JobId, files: seq<FileRecord>)
    ensures SameKinds(t, Apply(t, Install(id, files)))
  {
    if id < |t| {
      RowKeepsKinds(t, id, Apply(t, Install(id, files))[id]);
    }
  }

  lemma AcknowledgeKeepsKinds(t: Table, id: JobId, paths: set<string>)
    ensures SameKinds(t, Apply(t, Acknowledge(id, paths)))
  {
    if id < |t| {
      RowKeepsKinds(t, id, Apply(t, Acknowledge(id, paths))[id]);
    }
  }

  lemma HeartbeatKeepsKinds(t: Table, id: JobId, owner: string, expires: int)
    ensures SameKinds(t, Apply(t, JobSafety.Heartbeat(id, owner, expires)))
  {
    if id < |t| {
      RowKeepsKinds(t, id, Apply(t, JobSafety.Heartbeat(id, owner, expires))[id]);
    }
  }

  lemma QueueStepKeepsKinds(t: Table, e: Event)
    requires Safe(t, StoreIdForRoot) && Enabled(t, e, StoreIdForRoot) && !e.Enqueue?
    ensures SameKinds(t, Apply(t, e))
  {
    match e
    case Fail(id) => HandOverKeepsKinds(t, id, e);
    case Reclaim(id, _) => HandOverKeepsKinds(t, id, e);
    case CancelAll => CancelAllKeepsKinds(t);
    case Claim(id, _, _) => RowKeepsKinds(t, id, Apply(t, e)[id]);
    case Complete(id) => RowKeepsKinds(t, id, Apply(t, e)[id]);
    case MarkCancelled(id) => RowKeepsKinds(t, id, Apply(t, e)[id]);
    case RequestCancel(id) => RowKeepsKinds(t, id, Apply(t, e)[id]);
    case Heartbeat(id, owner, expires) => HeartbeatKeepsKinds(t, id, owner, expires);
    case Install(id, files) => InstallKeepsKinds(t, id, files);
    case Acknowledge(id, paths) => AcknowledgeKeepsKinds(t, id, paths);
  }

  lemma MergeKeepsKinds(t: Table, id: JobId, heir: JobId, attempts: int)
    requires Safe(t, StoreIdForRoot) && id < |t| && heir < |t| && id != heir
    requires t[id].status.Leased() && t[heir].status.Waiting() && t[id].repo == t[heir].repo
    ensures SameKinds(t, MergeInto(t, id, heir, attempts))
  {
  }

  lemma KindsKeepBindings(t: Table, t': Table, h: Home)
    requires SameKinds(t, t')
    requires Stored(t) && Bound(t, h) && DropsBound(t, h) && Buried(t, h)
    ensures Stored(t') && Bound(t', h) && DropsBound(t', h) && Buried(t', h)
  {
  }

  /** A queue step by the runner, by recovery or by a cancel request keeps the daemon coherent. */
  lemma QueueStepKeepsCoherent(w: World, e: Event, flight: Option<Flight>)
    requires Coherent(w) && Enabled(w.table, e, StoreIdForRoot) && !e.Enqueue?
    requires flight.None? || (flight == w.flight && (e.RequestCancel? || e.CancelAll? || e.Heartbeat? || e.Install? || e.Acknowledge?))
             || (w.flight.None? && e.Claim? && flight == Some(Flight(e.id, Stage.Claimed)))
    ensures Coherent(w.(table := Apply(w.table, e), flight := flight))
  {
    var w' := w.(table := Apply(w.table, e), flight := flight);
    StepKeepsSafe(w.table, e, StoreIdForRoot);
    QueueStepKeepsKinds(w.table, e);
    KindsKeepBindings(w.table, w'.table, w.home);
    if flight.Some? {
      var id := flight.value.id;
      assert id < |w.table| && w'.table[id].status.Leased() by { FlightStaysLeased(w.table, e, id); }
    }
  }

  lemma FlightStaysLeased(t: Table, e: Event, id: JobId)
    requires id < |t| && (t[id].status.Leased() || (e.Claim? && e.id == id))
    requires e.RequestCancel? || e.CancelAll? || e.Heartbeat? || e.Install? || e.Acknowledge? || e.Claim?
    requires Enabled(t, e, StoreIdForRoot)
    ensures id < |Apply(t, e)| && Apply(t, e)[id].status.Leased()
  {
  }

  // ---------------------------------------------------------------- requests

  lemma AdmitKeepsCoherent(w: World, q: Request, now: int)
    requires Coherent(w) && q.maxAttempts >= 1 && q.storeId == Some(StoreIdForRoot(q.repo))
    requires !q.work.mode.DropIndex? ==>
               q.repo in w.home.catalog && q.generation.Some? && w.home.catalog[q.repo].generation == q.generation
    requires q.work.mode.DropIndex? && q.repo in w.home.catalog ==> w.home.catalog[q.repo].generation == q.generation
    requires ActiveDeletion(w.table, q.repo).None?
    ensures Coherent(Admit(w, w.home, q, now))
  {
    EnqueueKeepsSafe(w.table, q, now, StoreIdForRoot);
    match OtherWaiting(w.table, q.repo, |w.table|)
    case None => AppendKeepsBindings(w.table, NewRow(q, now), w.home);
    case Some(i) => CoalesceKeepsBindings(w.table, i, Merge(w.table[i].work, q.work), w.home);
  }

  lemma AppendKeepsBindings(t: Table, row: Row, h: Home)
    requires Stored(t) && Bound(t, h) && DropsBound(t, h) && Buried(t, h)
    requires row.storeId == Some(StoreIdForRoot(row.repo))
    requires !row.work.mode.DropIndex? ==>
               row.repo in h.catalog && row.generation.Some? && h.catalog[row.repo].generation == row.generation
    requires row.work.mode.DropIndex? && row.repo in h.catalog ==> h.catalog[row.repo].generation == row.generation
    ensures Stored(t + [row]) && Bound(t + [row], h) && DropsBound(t + [row], h) && Buried(t + [row], h)
  {
  }

  lemma CoalesceKeepsBindings(t: Table, i: JobId, work: Work, h: Home)
    requires Stored(t) && Bound(t, h) && DropsBound(t, h) && Buried(t, h)
    requires i < |t| && t[i].status.Waiting() && !t[i].work.mode.DropIndex?
    ensures var t' := t[i := t[i].(work := work, status := Queued)];
            Stored(t') && Bound(t', h) && DropsBound(t', h) && Buried(t', h)
  {
  }

  // ---------------------------------------------------------------- enrolment

  predicate Unactivated(h: Home, root: string) {
    root !in h.catalog || h.catalog[root].generation.None?
  }

  /** A repository without an activated generation and without an active deletion has no active work at all. */
  lemma UnactivatedIsIdle(w: World, root: string)
    requires Coherent(w) && Unactivated(w.home, root) && ActiveDeletion(w.table, root).None?
    ensures forall i :: 0 <= i < |w.table| && w.table[i].status.Active() ==> w.table[i].repo != root
  {
  }

  lemma RegisterKeepsCoherent(w: World, root: string)
    requires Coherent(w) && Unactivated(w.home, root) && ActiveDeletion(w.table, root).None?
    ensures Coherent(w.(home := ApplyEnrol(w.home, RegisterRoot(root))))
  {
    UnactivatedIsIdle(w, root);
  }

  lemma ActivateKeepsCoherent(w: World, root: string, gen: string)
    requires Coherent(w) && Unactivated(w.home, root) && ActiveDeletion(w.table, root).None?
    requires root in w.home.catalog && StoreIdForRoot(root) in w.home.live && gen in w.home.live[StoreIdForRoot(root)].databases
    ensures Coherent(w.(home := ApplyEnrol(w.home, Activate(root, gen))))
  {
  }

  /** Creating or extending the store directory of a repository whose deletion is not active disturbs nobody. */
  lemma GrowLiveKeepsCoherent(w: World, root: string, live: Live)
    requires Coherent(w) && ActiveDeletion(w.table, root).None?
    requires StoreIdForRoot(root) in w.home.live ==> w.home.live[StoreIdForRoot(root)].databases <= live.databases
    requires StoreIdForRoot(root) !in w.home.live && root in w.home.catalog && w.home.catalog[root].generation.Some? ==>
               w.home.catalog[root].generation.value in live.databases
    ensures Coherent(w.(home := w.home.(live := w.home.live[StoreIdForRoot(root) := live])))
  {
    var h' := w.home.(live := w.home.live[StoreIdForRoot(root) := live]);
    forall tomb | tomb in h'.tombs && w.table[tomb.deletion].status.Active()
      ensures tomb.storeId !in h'.live
    {
      if tomb.storeId == StoreIdForRoot(root) {
        StoreIdInjective(w.table[tomb.deletion].repo, root);
      }
    }
    forall other | other in h'.catalog && StoreIdForRoot(other) == StoreIdForRoot(root)
      ensures other == root
    {
      StoreIdInjective(other, root);
    }
  }

  lemma {:induction false} ApplyEnrolsSnoc(h: Home, steps: seq<EnrolStep>, s: EnrolStep)
    ensures ApplyEnrols(h, steps + [s]) == ApplyEnrol(ApplyEnrols(h, steps), s)
    decreases |steps|
  {
    if steps == [] {
      assert ApplyEnrols(ApplyEnrol(h, s), []) == ApplyEnrol(h, s);
    } else {
      assert (steps + [s])[1..] == steps[1..] + [s];
      ApplyEnrolsSnoc(ApplyEnrol(h, steps[0]), steps[1..], s);
    }
  }

  /** An enrolment cut off anywhere leaves the daemon coherent. */
  lemma {:induction false} EnrolPrefixKeepsCoherent(w: World, root: string, gen: string, k: nat)
    requires Coherent(w) && Unactivated(w.home, root) && ActiveDeletion(w.table, root).None? && k <= 4
    ensures var h := ApplyEnrols(w.home, EnrolPlan(w.home, root, gen)[..k]);
            && Coherent(w.(home := h))
            && (k < 4 ==> Unactivated(h, root))
            && (k >= 1 ==> root in h.catalog)
            && (k >= 2 ==> StoreIdForRoot(root) in h.live)
            && (k >= 3 ==> gen in h.live[StoreIdForRoot(root)].databases)
            && (k == 4 ==> h.catalog[root].generation == Some(gen))
    decreases k
  {
    var plan := EnrolPlan(w.home, root, gen);
    if k > 0 {
      EnrolPrefixKeepsCoherent(w, root, gen, k - 1);
      var w1 := w.(home := ApplyEnrols(w.home, plan[..k - 1]));
      assert plan[..k] == plan[..k - 1] + [plan[k - 1]];
      ApplyEnrolsSnoc(w.home, plan[..k - 1], plan[k - 1]);
      match plan[k - 1]
      case RegisterRoot(_) => RegisterKeepsCoherent(w1, root);
      case CreateStore(id) => if id !in w1.home.live { GrowLiveKeepsCoherent(w1, root, Live({}, false)); }
      case CreateDatabase(id, _) =>
        GrowLiveKeepsCoherent(w1, root, AddDatabase(w1.home, id, gen).live[id]);
      case Activate(_, _) => ActivateKeepsCoherent(w1, root, gen);
    }
  }

  lemma EnrolledKeepsCoherent(w: World, root: string, gen: string, opens: bool)
    requires Coherent(w) && ActiveDeletion(w.table, root).None? && Enrolled(w.home, root, gen, opens).Ok?
    ensures var h := Enrolled(w.home, root, gen, opens).value;
            Coherent(w.(home := h)) && root in h.catalog && h.catalog[root].generation.Some?
  {
    var h := w.home;
    if Unactivated(h, root) {
      EnrolPrefixKeepsCoherent(w, root, gen, 4);
      assert EnrolPlan(h, root, gen)[..4] == EnrolPlan(h, root, gen);
    } else {
      var id, generation := h.catalog[root].storeId, h.catalog[root].generation.value;
      if !(id in h.live && generation in h.live[id].databases) {
        GrowLiveKeepsCoherent(w, root, AddDatabase(h, id, generation).live[id]);
      }
    }
  }

  // ---------------------------------------------------------------- deletion in flight

  /** A deletion in flight may always run: it is never superseded and never blocked. */
  lemma DeletionInFlightRuns(w: World, id: JobId)
    requires Coherent(w) && id < |w.table| && w.table[id].IsDeletion()
    ensures Runnable(w.home, DeletionOf(id, w.table[id]))
  {
  }

  lemma DropStepKeepsCoherent(w: World, id: JobId, s: DropStep)
    requires Coherent(w) && w.flight.Some? && w.flight.value.id == id && InFlight(w) && Job(w).IsDeletion()
    requires Due(w.home, DeletionOf(id, Job(w)), s)
    ensures Coherent(w.(home := ApplyDrop(w.home, DeletionOf(id, Job(w)), s)))
  {
  }

  lemma {:induction false} DropPrefixKeepsCoherent(w: World, id: JobId, steps: seq<DropStep>)
    requires Coherent(w) && w.flight.Some? && w.flight.value.id == id && InFlight(w) && Job(w).IsDeletion()
    requires AllDue(w.home, DeletionOf(id, Job(w)), steps)
    ensures Coherent(w.(home := ApplyDrops(w.home, DeletionOf(id, Job(w)), steps)))
    decreases |steps|
  {
    if steps != [] {
      DropStepKeepsCoherent(w, id, steps[0]);
      DropPrefixKeepsCoherent(w.(home := ApplyDrop(w.home, DeletionOf(id, Job(w)), steps[0])), id, steps[1..]);
    }
  }

  lemma {:induction false} DuePrefixOf(h: Home, d: Deletion, steps: seq<DropStep>, k: nat)
    requires AllDue(h, d, steps) && k <= |steps|
    ensures AllDue(h, d, steps[..k])
    decreases k
  {
    if k > 0 {
      DuePrefixOf(ApplyDrop(h, d, steps[0]), d, steps[1..], k - 1);
      assert steps[..k][1..] == steps[1..][..k - 1];
    }
  }

  lemma RunDropKeepsCoherent(w: World, order: seq<Tomb>, k: nat)
    requires Coherent(w) && Allowed(w, RunDrop(order, k))
    ensures Coherent(Step(w, RunDrop(order, k)))
  {
    var id := w.flight.value.id;
    var d := DeletionOf(id, Job(w));
    DeletionInFlightRuns(w, id);
    PlanDue(w.home, d, order);
    var plan := DropPlan(w.home, d, order);
    DuePrefixOf(w.home, d, plan, k);
    DropPrefixKeepsCoherent(w, id, plan[..k]);
  }

  // ---------------------------------------------------------------- hooks

  /** The hooks of an index job in flight always find their generation, and so always succeed. */
  lemma HooksSucceed(w: World, state: StoreState)
    requires Coherent(w) && InFlight(w) && !Job(w).work.mode.DropIndex?
    ensures Job(w).generation.Some?
    ensures Registry.UpdateState(w.home, Job(w).repo, Job(w).generation.value, state).Ok?
  {
  }

  /** Moving the state of a bound store touches no binding. */
  lemma StateMoveKeepsStores(w: World, state: StoreState, h: Home)
    requires Coherent(w) && InFlight(w) && Job(w).generation.Some?
    requires Registry.UpdateState(w.home, Job(w).repo, Job(w).generation.value, state) == Ok(h)
    ensures CatalogIds(h) && Built(h) && Bound(w.table, h) && DropsBound(w.table, h) && Buried(w.table, h)
  {
  }

  lemma MarkKeepsStores(w: World, state: StoreState, stage: Stage)
    requires Coherent(w) && InFlight(w)
    ensures var now := Mark(w, state, stage);
      && now.table == w.table
      && now.flight == Some(Flight(w.flight.value.id, stage))
      && CatalogIds(now.home) && Built(now.home) && Bound(now.table, now.home)
      && DropsBound(now.table, now.home) && Buried(now.table, now.home)
  {
    if !Job(w).work.mode.DropIndex? {
      HooksSucceed(w, state);
      StateMoveKeepsStores(w, state, Registry.UpdateState(w.home, Job(w).repo, Job(w).generation.value, state).value);
    }
  }

  lemma StartKeepsTruth(w: World)
    requires Coherent(w) && Allowed(w, Start)
    ensures FlightRecorded(Step(w, Start)) && Truthful(Step(w, Start))
  {
    if !Job(w).work.mode.DropIndex? {
      HooksSucceed(w, SemanticStale);
    }
  }

  lemma StartKeepsCoherent(w: World)
    requires Coherent(w) && Allowed(w, Start)
    ensures Coherent(Step(w, Start)) && Step(w, Start).flight == Some(Flight(w.flight.value.id, Started))
  {
    MarkKeepsStores(w, SemanticStale, Started);
    StartKeepsTruth(w);
  }

  lemma RunIndexKeepsCoherent(w: World, clean: bool)
    requires Coherent(w) && Allowed(w, RunIndex(clean))
    ensures Coherent(Step(w, RunIndex(clean)))
  {
  }

  lemma PublishKeepsTruth(w: World)
    requires Coherent(w) && Allowed(w, Publish)
    ensures FlightRecorded(Step(w, Publish)) && Truthful(Step(w, Publish))
  {
    if !Job(w).work.mode.DropIndex? {
      HooksSucceed(w, SemanticReady);
    }
  }

  lemma PublishKeepsCoherent(w: World)
    requires Coherent(w) && Allowed(w, Publish)
    ensures Coherent(Step(w, Publish))
  {
    MarkKeepsStores(w, SemanticReady, Published);
    PublishKeepsTruth(w);
  }

  // ---------------------------------------------------------------- every step, every run

  lemma IndexKeepsCoherent(w: World, root: string, force: bool, gen: string, opens: bool, now: int)
    requires Coherent(w)
    ensures Coherent(Step(w, Index(root, force, gen, opens, now)))
  {
    if ActiveDeletion(w.table, root).None? && Enrolled(w.home, root, gen, opens).Ok? {
      EnrolledKeepsCoherent(w, root, gen, opens);
      var h := Enrolled(w.home, root, gen, opens).value;
      AdmitKeepsCoherent(w.(home := h), BindingRequest(root, h.catalog[root], Work(if force then ForceFull else Full, NO_PAYLOAD)), now);
    }
  }

  lemma EnrolCrashKeepsCoherent(w: World, root: string, gen: string, k: nat)
    requires Coherent(w) && Allowed(w, EnrolCrash(root, gen, k))
    ensures Coherent(Step(w, EnrolCrash(root, gen, k)))
  {
    if ActiveDeletion(w.table, root).None? && Unactivated(w.home, root) {
      EnrolPrefixKeepsCoherent(w, root, gen, if k <= 4 then k else 4);
      assert EnrolPlan(w.home, root, gen)[..4] == EnrolPlan(w.home, root, gen);
    }
  }

  lemma SubmitKeepsCoherent(w: World, root: string, work: Work, now: int)
    requires Coherent(w) && Allowed(w, Submit(root, work, now))
    ensures Coherent(Step(w, Submit(root, work, now)))
  {
    if ActiveDeletion(w.table, root).None? {
      AdmitKeepsCoherent(w, BindingRequest(root, w.home.catalog[root], work), now);
    }
  }

  lemma DropKeepsCoherent(w: World, root: string, now: int)
    requires Coherent(w)
    ensures Coherent(Step(w, Drop(root, now)))
  {
    var target := DeletionTarget(w.home, root);
    if target.Some? && ActiveDeletion(w.table, root).None? {
      AdmitKeepsCoherent(w, BindingRequest(root, target.value, Work(DropIndex, NO_PAYLOAD)), now);
    }
  }

  lemma LandingKeepsCoherent(w: World, e: WorldEvent)
    requires Coherent(w) && Allowed(w, e) && (e.Finish? || e.StopCancelled? || e.ReportFailure?)
    ensures Coherent(Step(w, e))
  {
    match e
    case Finish => QueueStepKeepsCoherent(w, Complete(w.flight.value.id), None);
    case StopCancelled => QueueStepKeepsCoherent(w, MarkCancelled(w.flight.value.id), None);
    case ReportFailure => QueueStepKeepsCoherent(w, Fail(w.flight.value.id), None);
  }

  lemma CrashKeepsCoherent(w: World)
    requires Coherent(w)
    ensures Coherent(w.(flight := None))
  {
  }

  lemma StepKeepsCoherent(w: World, e: WorldEvent)
    requires Coherent(w) && Allowed(w, e)
    ensures Coherent(Step(w, e))
  {
    match e
    case Index(root, force, gen, opens, now) => IndexKeepsCoherent(w, root, force, gen, opens, now);
    case EnrolCrash(root, gen, k) => EnrolCrashKeepsCoherent(w, root, gen, k);
    case Submit(root, work, now) => SubmitKeepsCoherent(w, root, work, now);
    case Drop(root, now) => DropKeepsCoherent(w, root, now);
    case Queue(q) => QueueStepKeepsCoherent(w, q, w.flight);
    case ClaimJob(id, owner, expires) =>
      QueueStepKeepsCoherent(w, Claim(id, owner, expires), Some(Flight(id, Stage.Claimed)));
    case Start => StartKeepsCoherent(w);
    case RunIndex(clean) => RunIndexKeepsCoherent(w, clean);
    case RunDrop(order, k) => RunDropKeepsCoherent(w, order, k);
    case Publish => PublishKeepsCoherent(w);
    case Finish => LandingKeepsCoherent(w, e);
    case StopCancelled => LandingKeepsCoherent(w, e);
    case ReportFailure => LandingKeepsCoherent(w, e);
    case Crash => CrashKeepsCoherent(w);
    case Recover(id, foreign) => QueueStepKeepsCoherent(w, Reclaim(id, foreign), None);
  }

  ghost predicate WorldRun(w: World, events: seq<WorldEvent>)
    decreases |events|
  {
    events == [] || (Allowed(w, events[0]) && WorldRun(Step(w, events[0]), events[1..]))
  }

  function WorldAfter(w: World, events: seq<WorldEvent>): World
    decreases |events|
  {
    if events == [] then w else WorldAfter(Step(w, events[0]), events[1..])
  }

  lemma {:induction false} RunStaysCoherent(w: World, events: seq<WorldEvent>)
    requires Coherent(w) && WorldRun(w, events)
    ensures Coherent(WorldAfter(w, events))
    decreases |events|
  {
    if events != [] {
      StepKeepsCoherent(w, events[0]);
      RunStaysCoherent(Step(w, events[0]), events[1..]);
    }
  }

  // ---------------------------------------------------------------- what runs guarantee

  /** Binding agreement: in every run a claimed index job is never rejected for a stale binding. */
  lemma ClaimedIndexJobIsNeverStale(events: seq<WorldEvent>)
    requires WorldRun(START, events) && InFlight(WorldAfter(START, events)) && !Job(WorldAfter(START, events)).work.mode.DropIndex?
    ensures var w := WorldAfter(START, events);
            && Job(w).storeId.Some? && Job(w).generation.Some?
            && GraphForBinding(w.home, Job(w).repo, Binding(Job(w).storeId.value, Job(w).generation.value)) != Err(StaleBinding)
  {
    RunStaysCoherent(START, events);
  }

  /** In every run a deletion in flight that is carried out to its end forgets its repository, whatever crashed before. */
  lemma DeletionInFlightForgets(events: seq<WorldEvent>, order: seq<Tomb>)
    requires WorldRun(START, events) && InFlight(WorldAfter(START, events)) && Job(WorldAfter(START, events)).IsDeletion()
    requires var w := WorldAfter(START, events);
             Enumerates(order, RetiredBy(w.home, DeletionOf(w.flight.value.id, Job(w))))
    ensures var w := WorldAfter(START, events);
            var d := DeletionOf(w.flight.value.id, Job(w));
            var h := ApplyDrops(w.home, d, DropPlan(w.home, d, order));
            && d.root !in h.catalog && d.storeId !in h.live && (forall t :: t in h.tombs ==> t.storeId != d.storeId)
            && h.catalog == w.home.catalog - {d.root} && h.live == w.home.live - {d.storeId}
  {
    RunStaysCoherent(START, events);
    var w := WorldAfter(START, events);
    var d := DeletionOf(w.flight.value.id, Job(w));
    DeletionInFlightRuns(w, w.flight.value.id);
    PlanDue(w.home, d, order);
    if !Matches(w.home, d) {
      assert d.root !in w.home.catalog;
      assert w.home.catalog - {d.root} == w.home.catalog;
    }
  }

  /** Truthful readiness: a ready generation's last started index job returned cleanly, and none is at work on it. */
  lemma ReadinessIsTruthful(events: seq<WorldEvent>, root: string)
    requires WorldRun(START, events)
    requires root in WorldAfter(START, events).home.catalog && WorldAfter(START, events).home.catalog[root].state.SemanticReady?
    ensures var w := WorldAfter(START, events);
            && w.home.catalog[root].generation.Some?
            && (root, w.home.catalog[root].generation.value) in w.last
            && w.last[(root, w.home.catalog[root].generation.value)] == Ended(true)
            && (InFlight(w) && Job(w).repo == root && !Job(w).work.mode.DropIndex? ==>
                w.flight.value.stage.Claimed? || w.flight.value.stage.Published?)
  {
    RunStaysCoherent(START, events);
  }

  /** The runner's guard is what makes readiness truthful: publishing is honest exactly when the run was not degraded. */
  lemma PublishTruthfulExactly(w: World)
    requires Coherent(w) && InFlight(w) && w.flight.value.stage.Returned? && !Job(w).work.mode.DropIndex?
    ensures Truthful(Mark(w, SemanticReady, Published)) <==> w.flight.value.stage.clean
  {
    HooksSucceed(w, SemanticReady);
    var now := Mark(w, SemanticReady, Published);
    assert now.home.catalog[Job(w).repo].state.SemanticReady? && now.last == w.last;
  }

  // ---------------------------------------------------------------- what each step achieves

  /** The start hook of an index job marks its store stale. */
  lemma StartMarksStale(w: World)
    requires Coherent(w) && Allowed(w, Start) && !Job(w).work.mode.DropIndex?
    ensures var w' := Step(w, Start);
            && Job(w).repo in w'.home.catalog && w'.home.catalog[Job(w).repo].state.SemanticStale?
            && w'.flight == Some(Flight(w.flight.value.id, Started)) && w'.table == w.table
  {
    HooksSucceed(w, SemanticStale);
  }

  /** The completion hook of an index job marks its store ready. */
  lemma PublishMarksReady(w: World)
    requires Coherent(w) && Allowed(w, Publish) && !Job(w).work.mode.DropIndex?
    ensures var w' := Step(w, Publish);
            && Job(w).repo in w'.home.catalog && w'.home.catalog[Job(w).repo].state.SemanticReady?
            && w'.flight == Some(Flight(w.flight.value.id, Published)) && w'.table == w.table
  {
    HooksSucceed(w, SemanticReady);
  }

  predicate Ready(h: Home, root: string) {
    root in h.catalog && h.catalog[root].state.SemanticReady?
  }

  /** The events that take readiness away: the start of another index job of the repository, and its deletion. */
  predicate Unsettles(w: World, e: WorldEvent, root: string) {
    InFlight(w) && Job(w).repo == root && (e.Start? || e.RunDrop?)
  }

  ghost predicate Settled(w: World, events: seq<WorldEvent>, root: string)
    decreases |events|
  {
    events == [] || (!Unsettles(w, events[0], root) && Settled(Step(w, events[0]), events[1..], root))
  }

  lemma ReadyRootIsEnrolled(h: Home, root: string, gen: string, opens: bool)
    requires root in h.catalog && h.catalog[root].generation.Some? && Enrolled(h, root, gen, opens).Ok?
    ensures Enrolled(h, root, gen, opens).value.catalog == h.catalog
  {
  }

  lemma OtherEnrolKeepsRow(h: Home, root: string, gen: string, k: nat, other: string)
    requires other in h.catalog && (other == root ==> h.catalog[root].generation.Some?)
    ensures var plan := EnrolPlan(h, root, gen);
            var h' := ApplyEnrols(h, if k <= |plan| then plan[..k] else plan);
            other in h'.catalog && h'.catalog[other] == h.catalog[other]
  {
    var plan := EnrolPlan(h, root, gen);
    if plan != [] {
      EnrolStepsKeepRow(h, if k <= |plan| then plan[..k] else plan, root, other);
    }
  }

  lemma {:induction false} EnrolStepsKeepRow(h: Home, steps: seq<EnrolStep>, root: string, other: string)
    requires other in h.catalog && other != root
    requires forall i :: 0 <= i < |steps| ==> (steps[i].RegisterRoot? || steps[i].Activate?) ==> steps[i].root == root
    ensures var h' := ApplyEnrols(h, steps); other in h'.catalog && h'.catalog[other] == h.catalog[other]
    decreases |steps|
  {
    if steps != [] {
      EnrolStepsKeepRow(ApplyEnrol(h, steps[0]), steps[1..], root, other);
    }
  }

  lemma {:induction false} OtherDropsKeepRow(h: Home, d: Deletion, steps: seq<DropStep>, other: string)
    requires other in h.catalog && other != d.root
    ensures var h' := ApplyDrops(h, d, steps); other in h'.catalog && h'.catalog[other] == h.catalog[other]
    decreases |steps|
  {
    if steps != [] {
      OtherDropsKeepRow(ApplyDrop(h, d, steps[0]), d, steps[1..], other);
    }
  }

  lemma StepKeepsReady(w: World, e: WorldEvent, root: string)
    requires Coherent(w) && Allowed(w, e) && Ready(w.home, root) && !Unsettles(w, e, root)
    ensures Ready(Step(w, e).home, root)
  {
    match e
    case Index(r, force, gen, opens, now) =>
      if Enrolled(w.home, r, gen, opens).Ok? {
        if w.home.catalog[root].generation.Some? && r == root {
          ReadyRootIsEnrolled(w.home, root, gen, opens);
        } else if Unactivated(w.home, r) {
          OtherEnrolKeepsRow(w.home, r, gen, 4, root);
          assert EnrolPlan(w.home, r, gen)[..4] == EnrolPlan(w.home, r, gen);
        }
      }
    case EnrolCrash(r, gen, k) => OtherEnrolKeepsRow(w.home, r, gen, k, root);
    case Publish =>
      if !Job(w).work.mode.DropIndex? { HooksSucceed(w, SemanticReady); }
    case RunDrop(order, k) =>
      OtherDropsKeepRow(w.home, DeletionOf(w.flight.value.id, Job(w)), DropPlan(w.home, DeletionOf(w.flight.value.id, Job(w)), order)[..k], root);
    case _ =>
  }

  /** Readiness lasts: whatever else happens, only another index job of the repository or its deletion takes it away. */
  lemma {:induction false} ReadinessLasts(w: World, events: seq<WorldEvent>, root: string)
    requires Coherent(w) && WorldRun(w, events) && Ready(w.home, root) && Settled(w, events, root)
    ensures Ready(WorldAfter(w, events).home, root)
    decreases |events|
  {
    if events != [] {
      StepKeepsReady(w, events[0], root);
      StepKeepsCoherent(w, events[0]);
      ReadinessLasts(Step(w, events[0]), events[1..], root);
    }
  }

  /** A published run leaves its store ready until something unsettles it. */
  lemma PublishedStaysReady(w: World, events: seq<WorldEvent>)
    requires Coherent(w) && Allowed(w, Publish) && !Job(w).work.mode.DropIndex?
    requires WorldRun(Step(w, Publish), events) && Settled(Step(w, Publish), events, Job(w).repo)
    ensures Ready(WorldAfter(Step(w, Publish), events).home, Job(w).repo)
  {
    PublishMarksReady(w);
    StepKeepsCoherent(w, Publish);
    ReadinessLasts(Step(w, Publish), events, Job(w).repo);
  }

  /** The whole life of an index job that nothing disturbs: claimed, started, run without degradation, published, finished. */
  function GoodLife(id: JobId, owner: string, expires: int): seq<WorldEvent> {
    [ClaimJob(id, owner, expires), Daemon.Start, RunIndex(true), Publish, Finish]
  }

  /** An index job of the repository is in flight at a stage, and nobody has asked to cancel it. */
  ghost predicate Going(w: World, id: JobId, stage: Stage, repo: string) {
    && Coherent(w) && AtStage(w, stage) && w.flight.value.id == id
    && Job(w).repo == repo && Job(w).status.Running? && !Job(w).work.mode.DropIndex?
  }

  lemma ClaimGoes(w: World, id: JobId, owner: string, expires: int)
    requires Coherent(w) && w.flight.None? && FirstInLine(w.table, id) && !w.table[id].work.mode.DropIndex?
    ensures Going(Step(w, ClaimJob(id, owner, expires)), id, Claimed, w.table[id].repo)
  {
    StepKeepsCoherent(w, ClaimJob(id, owner, expires));
  }

  lemma StartGoes(w: World, id: JobId, repo: string)
    requires Going(w, id, Claimed, repo)
    ensures Allowed(w, Daemon.Start) && Going(Step(w, Daemon.Start), id, Started, repo)
  {
    StepKeepsCoherent(w, Daemon.Start);
    StartMarksStale(w);
  }

  lemma RunGoes(w: World, id: JobId, repo: string)
    requires Going(w, id, Started, repo)
    ensures Allowed(w, RunIndex(true)) && Going(Step(w, RunIndex(true)), id, Returned(true), repo)
  {
    StepKeepsCoherent(w, RunIndex(true));
  }

  lemma PublishGoes(w: World, id: JobId, repo: string)
    requires Going(w, id, Returned(true), repo)
    ensures Allowed(w, Publish) && Going(Step(w, Publish), id, Published, repo) && Ready(Step(w, Publish).home, repo)
  {
    StepKeepsCoherent(w, Publish);
    PublishMarksReady(w);
  }

  lemma FinishGoes(w: World, id: JobId, repo: string)
    requires Going(w, id, Published, repo)
    ensures Allowed(w, Finish)
    ensures var w' := Step(w, Finish);
            id < |w'.table| && w'.table[id].status.Completed? && w'.flight.None? && w'.home == w.home
  {
  }

  /** Such a job ends completed, its store is ready, and the runner is free for the next one. */
  lemma GoodLifeEndsReady(w: World, id: JobId, owner: string, expires: int)
    requires Coherent(w) && w.flight.None? && FirstInLine(w.table, id) && !w.table[id].work.mode.DropIndex?
    ensures WorldRun(w, GoodLife(id, owner, expires))
    ensures var w' := WorldAfter(w, GoodLife(id, owner, expires));
            && id < |w'.table| && w'.table[id].status.Completed? && w'.flight.None?
            && Ready(w'.home, w.table[id].repo)
  {
    var repo := w.table[id].repo;
    var w1 := Step(w, ClaimJob(id, owner, expires));
    ClaimGoes(w, id, owner, expires);
    var w2 := Step(w1, Daemon.Start);
    StartGoes(w1, id, repo);
    var w3 := Step(w2, RunIndex(true));
    RunGoes(w2, id, repo);
    var w4 := Step(w3, Publish);
    PublishGoes(w3, id, repo);
    FinishGoes(w4, id, repo);
    GoodLifeUnfolds(w, w1, w2, w3, w4, id, owner, expires);
  }

  lemma GoodLifeUnfolds(w: World, w1: World, w2: World, w3: World, w4: World, id: JobId, owner: string, expires: int)
    requires Allowed(w, ClaimJob(id, owner, expires)) && Step(w, ClaimJob(id, owner, expires)) == w1
    requires Allowed(w1, Daemon.Start) && Step(w1, Daemon.Start) == w2
    requires Allowed(w2, RunIndex(true)) && Step(w2, RunIndex(true)) == w3
    requires Allowed(w3, Publish) && Step(w3, Publish) == w4 && Allowed(w4, Finish)
    ensures WorldRun(w, GoodLife(id, owner, expires))
    ensures WorldAfter(w, GoodLife(id, owner, expires)) == Step(w4, Finish)
  {
    var life := GoodLife(id, owner, expires);
    assert life[1..] == [Daemon.Start, RunIndex(true), Publish, Finish];
    assert life[1..][1..] == [RunIndex(true), Publish, Finish];
    assert life[1..][1..][1..] == [Publish, Finish];
    assert life[1..][1..][1..][1..] == [Finish];
    assert life[1..][1..][1..][1..][1..] == [];
    assert WorldRun(Step(w4, Finish), []) && WorldRun(w4, [Finish]);
    assert WorldAfter(w4, [Finish]) == Step(w4, Finish);
    assert WorldRun(w3, [Publish, Finish]) && WorldAfter(w3, [Publish, Finish]) == Step(w4, Finish);
    assert WorldRun(w2, life[1..][1..]) && WorldAfter(w2, life[1..][1..]) == Step(w4, Finish);
    assert WorldRun(w1, life[1..]) && WorldAfter(w1, life[1..]) == Step(w4, Finish);
  }

  /** No run rebuilds a store beside the tombstone of a deletion that is still active. */
  lemma NoStoreIsRebuiltBesideItsTombstone(events: seq<WorldEvent>, i: JobId)
    requires WorldRun(START, events) && i < |WorldAfter(START, events).table|
    requires WorldAfter(START, events).table[i].IsDeletion()
    ensures var w := WorldAfter(START, events);
            var d := DeletionOf(i, w.table[i]);
            !(d.OwnTomb() in w.home.tombs && d.storeId in w.home.live)
  {
    RunStaysCoherent(START, events);
  }

  // ---------------------------------------------------------------- where the guarantee ends

  /**
  A request that carries a binding read earlier, as the files route and the watcher do without the
  repository lock, keeps binding agreement exactly if it is coalesced or its binding is still current.
  */
  lemma EnqueueKeepsBoundExactly(w: World, q: Request, now: int)
    requires Coherent(w) && !q.work.mode.DropIndex? && q.storeId == Some(StoreIdForRoot(q.repo))
    requires Jobs.Enqueue(w.table, q, now).Ok?
    ensures Bound(Jobs.Enqueue(w.table, q, now).value.table, w.home) <==>
            || OtherWaiting(w.table, q.repo, |w.table|).Some?
            || (q.repo in w.home.catalog && q.generation.Some? && w.home.catalog[q.repo].generation == q.generation)
  {
    var t' := Jobs.Enqueue(w.table, q, now).value.table;
    match OtherWaiting(w.table, q.repo, |w.table|)
    case Some(i) => CoalesceKeepsBindings(w.table, i, Merge(w.table[i].work, q.work), w.home);
    case None =>
      assert t'[|w.table|] == NewRow(q, now);
      if q.repo in w.home.catalog && q.generation.Some? && w.home.catalog[q.repo].generation == q.generation {
        AppendKeepsBindings(w.table, NewRow(q, now), w.home);
      }
  }
}
