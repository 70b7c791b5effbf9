/** The frozen manifest of a force-full job survives claims, failures, recovery and weaker requests. */
module Checkpoint {
  import opened Outcome
  import opened Jobs
  import opened JobSafety
  import opened Requests

  /** `s'` froze the same files as `s` and lost none of its acknowledgements. */
  ghost predicate SameManifest(s: Snapshot, s': Snapshot) {
    && s'.storeId == s.storeId && s'.generation == s.generation
    && s'.files.Keys == s.files.Keys
    && forall p :: p in s.files ==>
         && s'.files[p].(acknowledged := false) == s.files[p].(acknowledged := false)
         && (s.files[p].acknowledged ==> s'.files[p].acknowledged)
  }

  function Acked(s: Snapshot): set<string> {
    set p | p in s.files && s.files[p].acknowledged
  }

  /** What the next attempt of the job is run on. */
  function Targets(s: Snapshot): set<string> {
    set p | p in s.files && !s.files[p].acknowledged
  }

  ghost predicate Holds(t: Table, id: JobId, s: Snapshot) {
    && id < |t|
    && t[id].work.mode.ForceFull?
    && t[id].work.payload.snapshot.Some?
    && SameManifest(s, t[id].work.payload.snapshot.value)
  }

  /** The row that holds the manifest after an event. */
  function Keeper(t: Table, e: Event, id: JobId): JobId {
    if Move(t, e).Some? && Move(t, e).value.0 == id then Move(t, e).value.1 else id
  }

  /** The row an accepted request lands on; it may be a new one. */
  function Lands(t: Table, e: Event): Option<JobId> {
    match e
    case Enqueue(q, now) => (match Jobs.Enqueue(t, q, now) case Ok(a) => Some(a.id) case Err(_) => None)
    case _ => None
  }

  /** No explicit force or deletion request meets the manifest's own row in this step. */
  ghost predicate Gentle(t: Table, e: Event, id: JobId)
    requires id < |t|
  {
    && (Lands(t, e) == Some(id) ==> e.request.work.mode.Rank() < ForceFull.Rank())
    && (Move(t, e).Some? && Move(t, e).value.0 == id ==> !t[Move(t, e).value.1].work.mode.DropIndex?)
    && (Move(t, e).Some? && Move(t, e).value.1 == id ==> t[Move(t, e).value.0].work.mode.Rank() < ForceFull.Rank())
  }

  lemma CheckpointStep(t: Table, e: Event, id: JobId, s: Snapshot, key: string -> string)
    requires Holds(t, id, s) && Enabled(t, e, key) && Gentle(t, e, id)
    ensures Holds(Apply(t, e), Keeper(t, e, id), s)
  {
    match e
    case Enqueue(q, now) => EnqueueKeepsManifest(t, q, now, id);
    case Fail(_) => HandOverKeepsManifest(t, e, id, key);
    case Reclaim(_, _) => HandOverKeepsManifest(t, e, id, key);
    case Acknowledge(_, _) => AcknowledgeKeepsManifest(t, e, id, s);
    case _ =>
  }

  lemma EnqueueKeepsManifest(t: Table, q: Request, now: int, id: JobId)
    requires id < |t| && t[id].work.mode.ForceFull? && t[id].work.payload.snapshot.Some?
    requires Gentle(t, Enqueue(q, now), id)
    ensures var t' := Apply(t, Enqueue(q, now));
            && id < |t'| && t'[id].work.mode.ForceFull?
            && t'[id].work.payload.snapshot == t[id].work.payload.snapshot
  {
  }

  lemma HandOverKeepsManifest(t: Table, e: Event, id: JobId, key: string -> string)
    requires id < |t| && t[id].work.mode.ForceFull? && t[id].work.payload.snapshot.Some?
    requires (e.Fail? || e.Reclaim?) && Enabled(t, e, key) && Gentle(t, e, id)
    ensures var t', k := Apply(t, e), Keeper(t, e, id);
            && k < |t'| && t'[k].work.mode.ForceFull?
            && t'[k].work.payload.snapshot == t[id].work.payload.snapshot
  {
  }

  lemma AcknowledgeKeepsManifest(t: Table, e: Event, id: JobId, s: Snapshot)
    requires Holds(t, id, s) && e.Acknowledge?
    ensures Holds(Apply(t, e), id, s)
  {
  }

  ghost predicate GentleRun(t: Table, events: seq<Event>, id: JobId, key: string -> string)
    decreases |events|
  {
    && id < |t|
    && (events != [] ==>
        && Enabled(t, events[0], key)
        && Gentle(t, events[0], id)
        && GentleRun(Apply(t, events[0]), events[1..], Keeper(t, events[0], id), key))
  }

  function KeeperAfter(t: Table, events: seq<Event>, id: JobId): JobId
    decreases |events|
  {
    if events == [] then id else KeeperAfter(Apply(t, events[0]), events[1..], Keeper(t, events[0], id))
  }

  /** Over a whole run the frozen set never changes and acknowledgements only grow. */
  lemma {:induction false} CheckpointSurvivesRun(t: Table, events: seq<Event>, id: JobId, s: Snapshot, key: string -> string)
    requires Holds(t, id, s) && GentleRun(t, events, id, key)
    ensures Holds(JobSafety.After(t, events), KeeperAfter(t, events, id), s)
    decreases |events|
  {
    if events != [] {
      CheckpointStep(t, events[0], id, s, key);
      CheckpointSurvivesRun(Apply(t, events[0]), events[1..], Keeper(t, events[0], id), s, key);
    }
  }

  /** So the files still to do only shrink, and never leave the frozen set. */
  lemma TargetsShrink(t: Table, id: JobId, s: Snapshot)
    requires Holds(t, id, s)
    ensures var s' := t[id].work.payload.snapshot.value;
            Targets(s') <= Targets(s) && Targets(s') == s.files.Keys - Acked(s')
  {
  }

  /**
  A force request that waits behind a running force job keeps its own (still empty) manifest, when
  that job hands over its work, exactly if the job was not a force job or the manifests agree: the
  older manifest wins.  The comment at jobs.py:204-208 promises the opposite for explicit requests.
  */
  lemma FollowUpKeepsItsManifestExactly(t: Table, e: Event)
    requires Move(t, e).Some?
    requires t[Move(t, e).value.1].work.mode.ForceFull? && !t[Move(t, e).value.0].work.mode.DropIndex?
    requires t[Move(t, e).value.0].work.Normal()
    ensures var (gone, heir) := Move(t, e).value;
            (gone != heir ==>
             (Apply(t, e)[heir].work.payload.snapshot == t[heir].work.payload.snapshot <==>
              (!t[gone].work.mode.ForceFull? || t[gone].work.payload.snapshot == t[heir].work.payload.snapshot)))
  {
  }

  /** A force job that has frozen and finished its only file, on a table of its own. */
  function FinishedForceJob(repo: string, id: string, gen: string, owner: string, expires: int): Row {
    var file := FrozenFile("1f", "python", 9, true);
    Row(repo, Some(id), Some(gen), Work(ForceFull, NO_PAYLOAD.(snapshot := Some(Snapshot(Some(id), Some(gen), map["a.py" := file])))),
        Running, 0, 3, Some(owner), Some(expires), 0)
  }

  lemma FreezeOne(file: FileRecord)
    requires ValidRecord(file)
    ensures FreezeFiles([file]) == Ok(map[file.path := file.file])
  {
  }

  lemma InstallAndFinish(t: Table, file: FileRecord)
    requires |t| == 1 && t[0].status.Leased() && t[0].work == Work(ForceFull, NO_PAYLOAD) && ValidRecord(file)
    ensures var files := map[file.path := file.file.(acknowledged := true)];
            var done := NO_PAYLOAD.(snapshot := Some(Snapshot(t[0].storeId, t[0].generation, files)));
            Apply(Apply(t, Install(0, [file])), Acknowledge(0, {file.path})) == [t[0].(work := Work(ForceFull, done))]
  {
    FreezeOne(file);
    assert Acknowledged(map[file.path := file.file], {file.path}) == map[file.path := file.file.(acknowledged := true)];
  }

  lemma FinishedForceJobIsReachable(repo: string, id: string, gen: string, owner: string, expires: int)
    ensures
      var force := Request(repo, Some(id), Some(gen), Work(ForceFull, NO_PAYLOAD), 3);
      var claimed := Apply(Apply([], Enqueue(force, 0)), Claim(0, owner, expires));
      var installed := Apply(claimed, Install(0, [FileRecord("a.py", FrozenFile("1f", "python", 9, false))]));
      Apply(installed, Acknowledge(0, {"a.py"})) == [FinishedForceJob(repo, id, gen, owner, expires)]
  {
    var force := Request(repo, Some(id), Some(gen), Work(ForceFull, NO_PAYLOAD), 3);
    assert Apply([], Enqueue(force, 0)) == [NewRow(force, 0)];
    InstallAndFinish(Apply([NewRow(force, 0)], Claim(0, owner, expires)), FileRecord("a.py", FrozenFile("1f", "python", 9, false)));
  }

  /** A failing row with attempts left hands its work to the row waiting behind it. */
  lemma HandsOver(a: Row, b: Row)
    requires a.repo == b.repo && a.attempts + 1 < a.maxAttempts && b.status.Waiting()
    ensures Apply([a, b], Fail(0)) == [a.Released(Cancelled, a.attempts + 1), b.(work := Merge(b.work, a.work))]
  {
    assert FailHeir([a, b], 0) == Some(1);
  }

  lemma AskedBehind(row: Row, q: Request, now: int)
    requires row.repo == q.repo && row.status.Running? && !row.work.mode.DropIndex?
    ensures Apply([row], Enqueue(q, now)) == [row, NewRow(q, now)]
  {
    assert ActiveDeletion([row], q.repo).None? && OtherWaiting([row], q.repo, 1).None?;
  }

  /** A reindex requested while such a job runs is left with nothing to do once that job fails. */
  lemma ReindexCanInheritFinishedManifest(repo: string, id: string, gen: string, owner: string, expires: int)
    ensures
      var force := Request(repo, Some(id), Some(gen), Work(ForceFull, NO_PAYLOAD), 3);
      var asked := Apply([FinishedForceJob(repo, id, gen, owner, expires)], Enqueue(force, 1));
      var failed := Apply(asked, Fail(0));
      && |asked| == 2 && asked[1] == NewRow(force, 1)
      && |failed| == 2 && failed[0].status.Cancelled? && failed[1].status.Queued? && failed[1].work.mode.ForceFull?
      && failed[1].work.payload.snapshot.Some? && Targets(failed[1].work.payload.snapshot.value) == {}
  {
    var force := Request(repo, Some(id), Some(gen), Work(ForceFull, NO_PAYLOAD), 3);
    var row := FinishedForceJob(repo, id, gen, owner, expires);
    AskedBehind(row, force, 1);
    HandsOver(row, NewRow(force, 1));
  }
}
