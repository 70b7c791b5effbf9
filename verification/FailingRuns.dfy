/** Runs of the queue and of the daemon that lead to the states in which two guarantees end. */
module FailingRuns {
  import opened Outcome
  import opened Jobs
  import opened Registry
  import opened Daemon
  import opened DaemonSafety
  import opened RegistryStores

  // ---------------------------------------------------------------- a failure reported late

  lemma {:induction false} RunOneMore(t: Table, events: seq<JobSafety.Event>, e: JobSafety.Event, key: string -> string)
    requires JobSafety.Run(t, events, key) && JobSafety.Enabled(JobSafety.After(t, events), e, key)
    ensures JobSafety.Run(t, events + [e], key)
    ensures JobSafety.After(t, events + [e]) == JobSafety.Apply(JobSafety.After(t, events), e)
    decreases |events|
  {
    if events == [] {
      assert [e][1..] == [];
      assert JobSafety.Run(JobSafety.Apply(t, e), [e][1..], key);
      assert events + [e] == [e];
    } else {
      RunOneMore(JobSafety.Apply(t, events[0]), events[1..], e, key);
      assert (events + [e])[1..] == events[1..] + [e];
    }
  }

  function FullRequest(repo: string, id: string, gen: string): Request {
    Request(repo, Some(id), Some(gen), Work(Full, NO_PAYLOAD), 3)
  }

  function DropRequest(repo: string, id: string, gen: string): Request {
    Request(repo, Some(id), Some(gen), Work(DropIndex, NO_PAYLOAD), 3)
  }

  /** An index job runs to its end, and then a deletion is requested and claimed. */
  function LateRun(repo: string, id: string, gen: string, owner: string, other: string, expires: int): seq<JobSafety.Event> {
    [JobSafety.Enqueue(FullRequest(repo, id, gen), 0), JobSafety.Claim(0, owner, expires), JobSafety.Complete(0),
     JobSafety.Enqueue(DropRequest(repo, id, gen), 1), JobSafety.Claim(1, other, expires)]
  }

  function LateTable(repo: string, id: string, gen: string, owner: string, expires: int): Table {
    [NewRow(FullRequest(repo, id, gen), 0).(status := Completed),
     NewRow(DropRequest(repo, id, gen), 1).(status := Running, leaseOwner := Some(owner), leaseExpires := Some(expires))]
  }

  lemma LateRunFinishes(repo: string, id: string, gen: string, owner: string, other: string, expires: int, key: string -> string)
    requires key(repo) == id
    ensures var events := LateRun(repo, id, gen, owner, other, expires)[..3];
      && JobSafety.Run([], events, key)
      && JobSafety.After([], events) == [NewRow(FullRequest(repo, id, gen), 0).(status := Completed)]
  {
    var events := LateRun(repo, id, gen, owner, other, expires);
    var full := NewRow(FullRequest(repo, id, gen), 0);
    assert JobSafety.Run([], [], key) && JobSafety.After([], []) == [];
    RunOneMore([], [], events[0], key);
    assert [] + [events[0]] == events[..1];
    assert JobSafety.After([], events[..1]) == [full];
    RunOneMore([], events[..1], events[1], key);
    assert events[..1] + [events[1]] == events[..2];
    RunOneMore([], events[..2], events[2], key);
    assert events[..2] + [events[2]] == events[..3];
  }

  lemma LateRunReaches(repo: string, id: string, gen: string, owner: string, other: string, expires: int, key: string -> string)
    requires key(repo) == id
    ensures JobSafety.Run([], LateRun(repo, id, gen, owner, other, expires), key)
    ensures JobSafety.After([], LateRun(repo, id, gen, owner, other, expires)) == LateTable(repo, id, gen, other, expires)
  {
    var events := LateRun(repo, id, gen, owner, other, expires);
    LateRunFinishes(repo, id, gen, owner, other, expires, key);
    RunOneMore([], events[..3], events[3], key);
    assert events[..3] + [events[3]] == events[..4];
    var done := NewRow(FullRequest(repo, id, gen), 0).(status := Completed);
    assert JobSafety.After([], events[..4]) == [done, NewRow(DropRequest(repo, id, gen), 1)];
    RunOneMore([], events[..4], events[4], key);
    assert events[..4] + [events[4]] == events;
  }

  /**
  The runner publishes a job's final state inside the same try block that completes it
  (src/scs/indexing/runner.py:108-130): when that publication raises, the completed job is reported as failed.  If
  another owner has claimed a deletion in between, the job waits again beside it.
  */
  lemma LateFailureBreaksTheQueue(repo: string, id: string, gen: string, owner: string, other: string, expires: int, key: string -> string)
    requires key(repo) == id
    ensures JobSafety.Run([], LateRun(repo, id, gen, owner, other, expires), key)
    ensures var t := JobSafety.After([], LateRun(repo, id, gen, owner, other, expires));
      && |t| == 2 && JobSafety.Safe(t, key)
      && FailOrRetry(t, 0)[0].status.Queued? && FailOrRetry(t, 0)[1].IsDeletion()
      && !JobSafety.Safe(FailOrRetry(t, 0), key)
  {
    LateRunReaches(repo, id, gen, owner, other, expires, key);
    JobSafety.EveryRunIsSafe(LateRun(repo, id, gen, owner, other, expires), key);
    var t := LateTable(repo, id, gen, other, expires);
    JobSafety.FailKeepsSafeExactly(t, 0, key);
  }

  // ---------------------------------------------------------------- a binding read too early

  ghost predicate Takes(w: World, e: WorldEvent, w': World) {
    Allowed(w, e) && Step(w, e) == w'
  }

  /** The worlds a run passes through. */
  ghost predicate IsTrace(events: seq<WorldEvent>, worlds: seq<World>) {
    |worlds| == |events| + 1 && forall i, j :: 0 <= i < |events| && j == i + 1 ==> Takes(worlds[i], events[i], worlds[j])
  }

  lemma {:induction false} TraceIsRun(events: seq<WorldEvent>, worlds: seq<World>)
    requires IsTrace(events, worlds)
    ensures WorldRun(worlds[0], events) && WorldAfter(worlds[0], events) == worlds[|events|]
    decreases |events|
  {
    if events != [] {
      assert Takes(worlds[0], events[0], worlds[1]);
      forall i, j | 0 <= i < |events| - 1 && j == i + 1
        ensures Takes(worlds[1..][i], events[1..][i], worlds[1..][j])
      {
        assert Takes(worlds[i + 1], events[i + 1], worlds[j + 1]);
      }
      TraceIsRun(events[1..], worlds[1..]);
    }
  }

  /** A repository is indexed, dropped, and the deletion carried out to its end. */
  function DroppedRun(root: string, gen: string, owner: string, expires: int): seq<WorldEvent> {
    [Index(root, false, gen, true, 0), Drop(root, 1), ClaimJob(0, owner, expires), Daemon.Start,
     RunDrop([Tomb(StoreIdForRoot(root), 0)], 4), Publish, Finish]
  }

  function EnrolledHome(root: string, gen: string): Home {
    var id := StoreIdForRoot(root);
    Home(map[root := Record(id, Some(gen), SemanticStale)], map[id := Live({gen}, false)], {})
  }

  function IndexRow(root: string, gen: string): Row {
    NewRow(FullRequest(root, StoreIdForRoot(root), gen), 0)
  }

  function DropRow(root: string, gen: string): Row {
    IndexRow(root, gen).(work := Work(DropIndex, NO_PAYLOAD))
  }

  function ClaimedRow(root: string, gen: string, owner: string, expires: int): Row {
    DropRow(root, gen).(status := Running, leaseOwner := Some(owner), leaseExpires := Some(expires))
  }

  /** The worlds of that run. */
  function DroppedTrace(root: string, gen: string, owner: string, expires: int): seq<World> {
    var enrolled, gone := EnrolledHome(root, gen), Home(map[], map[], {});
    var claimed := [ClaimedRow(root, gen, owner, expires)];
    [START,
     World([IndexRow(root, gen)], enrolled, None, map[]),
     World([DropRow(root, gen)], enrolled, None, map[]),
     World(claimed, enrolled, Some(Flight(0, Stage.Claimed)), map[]),
     World(claimed, enrolled, Some(Flight(0, Started)), map[]),
     World(claimed, gone, Some(Flight(0, Returned(true))), map[]),
     World(claimed, gone, Some(Flight(0, Published)), map[]),
     World([DropRow(root, gen).(status := Completed)], gone, None, map[])]
  }

  lemma IndexStep(root: string, gen: string)
    ensures Takes(START, Index(root, false, gen, true, 0), World([IndexRow(root, gen)], EnrolledHome(root, gen), None, map[]))
  {
    EnrolEffect(START.home, root, gen);
    var none: set<string> := {};
    assert none + {gen} == {gen};
    assert ApplyEnrols(START.home, EnrolPlan(START.home, root, gen)) == EnrolledHome(root, gen);
  }

  lemma DropStepOf(root: string, gen: string)
    ensures Takes(World([IndexRow(root, gen)], EnrolledHome(root, gen), None, map[]), Drop(root, 1),
                  World([DropRow(root, gen)], EnrolledHome(root, gen), None, map[]))
  {
    var w := World([IndexRow(root, gen)], EnrolledHome(root, gen), None, map[]);
    assert ActiveDeletion(w.table, root).None?;
    assert OtherWaiting(w.table, root, 1) == Some(0);
  }

  lemma RunDropStep(root: string, gen: string, owner: string, expires: int)
    ensures var order := [Tomb(StoreIdForRoot(root), 0)];
      var w := World([ClaimedRow(root, gen, owner, expires)], EnrolledHome(root, gen), Some(Flight(0, Started)), map[]);
      Takes(w, RunDrop(order, 4), World(w.table, Home(map[], map[], {}), Some(Flight(0, Returned(true))), map[]))
  {
    var order := [Tomb(StoreIdForRoot(root), 0)];
    var h := EnrolledHome(root, gen);
    var d := DeletionOf(0, ClaimedRow(root, gen, owner, expires));
    assert RetiredBy(h, d) == {d.OwnTomb()};
    assert Enumerates(order, RetiredBy(h, d));
    assert |DropPlan(h, d, order)| == 4;
    RetriedDeletionForgets(h, d, [], h, order);
    assert DropPlan(h, d, order)[..4] == DropPlan(h, d, order);
    assert Forgotten(h, d) == Home(map[], map[], {});
  }

  lemma ClaimStep(root: string, gen: string, owner: string, expires: int)
    ensures Takes(World([DropRow(root, gen)], EnrolledHome(root, gen), None, map[]), ClaimJob(0, owner, expires),
                  World([ClaimedRow(root, gen, owner, expires)], EnrolledHome(root, gen), Some(Flight(0, Stage.Claimed)), map[]))
  {
  }

  lemma EndSteps(root: string, gen: string, owner: string, expires: int)
    ensures var published := World([ClaimedRow(root, gen, owner, expires)], Home(map[], map[], {}), Some(Flight(0, Published)), map[]);
      && Takes(published.(flight := Some(Flight(0, Returned(true)))), Publish, published)
      && Takes(published, Finish, World([DropRow(root, gen).(status := Completed)], published.home, None, map[]))
  {
  }

  lemma EarlyStep(root: string, gen: string, owner: string, expires: int, i: nat)
    requires i < 3
    ensures Takes(DroppedTrace(root, gen, owner, expires)[i], DroppedRun(root, gen, owner, expires)[i],
                  DroppedTrace(root, gen, owner, expires)[i + 1])
  {
    IndexStep(root, gen);
    DropStepOf(root, gen);
    ClaimStep(root, gen, owner, expires);
  }

  lemma LateStep(root: string, gen: string, owner: string, expires: int, i: nat)
    requires 3 <= i < 7
    ensures Takes(DroppedTrace(root, gen, owner, expires)[i], DroppedRun(root, gen, owner, expires)[i],
                  DroppedTrace(root, gen, owner, expires)[i + 1])
  {
    if i == 4 {
      RunDropStep(root, gen, owner, expires);
    } else if i >= 5 {
      EndSteps(root, gen, owner, expires);
    }
  }

  lemma DroppedRunReaches(root: string, gen: string, owner: string, expires: int)
    ensures WorldRun(START, DroppedRun(root, gen, owner, expires))
    ensures WorldAfter(START, DroppedRun(root, gen, owner, expires))
         == World([DropRow(root, gen).(status := Completed)], Home(map[], map[], {}), None, map[])
  {
    forall i, j | 0 <= i < 7 && j == i + 1
      ensures Takes(DroppedTrace(root, gen, owner, expires)[i], DroppedRun(root, gen, owner, expires)[i],
                    DroppedTrace(root, gen, owner, expires)[j])
    {
      if i < 3 {
        EarlyStep(root, gen, owner, expires, i);
      } else {
        LateStep(root, gen, owner, expires, i);
      }
    }
    TraceIsRun(DroppedRun(root, gen, owner, expires), DroppedTrace(root, gen, owner, expires));
  }

  /** With the repository gone, a request with the old binding is appended and bound to nothing. */
  lemma StaleRequestIsAppended(w: World, root: string, gen: string, payload: Payload, now: int)
    requires Coherent(w) && w.home == Home(map[], map[], {})
    requires ActiveDeletion(w.table, root).None? && OtherWaiting(w.table, root, |w.table|).None?
    ensures var q := Request(root, Some(StoreIdForRoot(root)), Some(gen), Work(Files, payload), 3);
      Jobs.Enqueue(w.table, q, now).Ok? && !Bound(Jobs.Enqueue(w.table, q, now).value.table, w.home)
  {
    var q := Request(root, Some(StoreIdForRoot(root)), Some(gen), Work(Files, payload), 3);
    EnqueueKeepsBoundExactly(w, q, now);
  }

  /**
  A files request whose binding was read before the repository was dropped is accepted after it, outside the
  repository lock: the new row is bound to a store that no longer exists.
  */
  lemma StaleBindingIsAccepted(root: string, gen: string, owner: string, expires: int, payload: Payload, now: int)
    ensures WorldRun(START, DroppedRun(root, gen, owner, expires))
    ensures var w := WorldAfter(START, DroppedRun(root, gen, owner, expires));
      var q := Request(root, Some(StoreIdForRoot(root)), Some(gen), Work(Files, payload), 3);
      && Coherent(w) && Jobs.Enqueue(w.table, q, now).Ok?
      && !Bound(Jobs.Enqueue(w.table, q, now).value.table, w.home)
  {
    DroppedRunReaches(root, gen, owner, expires);
    RunStaysCoherent(START, DroppedRun(root, gen, owner, expires));
    var w := WorldAfter(START, DroppedRun(root, gen, owner, expires));
    assert w.table == [DropRow(root, gen).(status := Completed)];
    StaleRequestIsAppended(w, root, gen, payload, now);
  }
}
