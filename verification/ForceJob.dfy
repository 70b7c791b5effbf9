/** A force-full job over a frozen manifest: retried attempts, marks and their meaning. */
module ForceJob {
  import opened Outcome
  import opened Pipeline
  import opened FileViews
  import opened CrashReplay
  import opened Convergence
  import Jobs

  /** The frozen files an attempt still has to index. */
  function Remaining(frozen: seq<FileEntry>, marked: set<string>): seq<FileEntry> {
    if frozen == [] then []
    else
      var last := frozen[|frozen| - 1];
      Remaining(frozen[..|frozen| - 1], marked) + (if last.path in marked then [] else [last])
  }

  lemma {:induction false} RemainingExactly(frozen: seq<FileEntry>, marked: set<string>, f: FileEntry)
    ensures f in Remaining(frozen, marked) <==> f in frozen && f.path !in marked
    decreases |frozen|
  {
    if frozen != [] {
      RemainingExactly(frozen[..|frozen| - 1], marked, f);
      assert frozen == frozen[..|frozen| - 1] + [frozen[|frozen| - 1]];
    }
  }

  lemma {:induction false} RemainingDistinct(frozen: seq<FileEntry>, marked: set<string>)
    requires DistinctPaths(frozen)
    ensures DistinctPaths(Remaining(frozen, marked))
    decreases |frozen|
  {
    if frozen != [] {
      var init, last := frozen[..|frozen| - 1], frozen[|frozen| - 1];
      RemainingDistinct(init, marked);
      forall f | f in Remaining(init, marked)
        ensures f.path != last.path
      {
        RemainingExactly(init, marked, f);
        var i :| 0 <= i < |init| && init[i] == f;
        assert frozen[i].path != frozen[|frozen| - 1].path;
      }
    }
  }

  function Attempt(s: Store, frozen: seq<FileEntry>): Run {
    Run(Remaining(frozen, s.marked), true, false, true)
  }

  function Done(env: Env, f: FileEntry): FileView {
    FileView(Planned(env, f), Vectors(env, f), Some(f.hash), true)
  }

  /** A path is marked only once the graph holds its frozen content and its frozen hash. */
  ghost predicate MarksHold(env: Env, s: Store, frozen: seq<FileEntry>) {
    forall f :: f in frozen && f.path in s.marked ==> env.parse(f).Some? && View(s, f.path) == Done(env, f)
  }

  /** What the whole job makes of a path. */
  function JobGoal(env: Env, frozen: seq<FileEntry>, v: FileView, p: string): FileView {
    match FileOf(frozen, p)
    case Some(f) => if env.parse(f).Some? then Done(env, f) else v
    case None => v
  }

  lemma AttemptStartsFine(env: Env, s: Store, frozen: seq<FileEntry>)
    requires WellFormed(s) && DistinctPaths(frozen)
    ensures ProperRun(Attempt(s, frozen)) && FineStore(env, s, Attempt(s, frozen)) && UnmarkedStore(s, Attempt(s, frozen))
  {
    var run := Attempt(s, frozen);
    RemainingDistinct(frozen, s.marked);
    forall p
      ensures Unmarked(run, View(s, p), p) && Fine(env, run, View(s, p), p)
    {
      if FileOf(run.entries, p).Some? {
        RemainingExactly(frozen, s.marked, FileOf(run.entries, p).value);
      }
    }
  }

  lemma FineStoreWellFormed(env: Env, s: Store, run: Run)
    requires FineStore(env, s, run)
    ensures WellFormed(s)
  {
    forall id | id in s.vectors
      ensures id in s.nodes
    {
      assert Fine(env, run, View(s, id.path), id.path);
      assert id in View(s, id.path).vectors;
    }
  }

  lemma AttemptPath(env: Env, s: Store, s1: Store, frozen: seq<FileEntry>, p: string)
    requires DistinctPaths(frozen) && MarksHold(env, s, frozen)
    requires var run := Attempt(s, frozen);
             Fine(env, run, View(s1, p), p) && Goal(env, run, View(s1, p), p) == Goal(env, run, View(s, p), p)
    ensures JobGoal(env, frozen, View(s1, p), p) == JobGoal(env, frozen, View(s, p), p)
    ensures p in s.marked ==> p in s1.marked
    ensures FileOf(frozen, p).Some? && p in s1.marked && p !in s.marked ==>
              env.parse(FileOf(frozen, p).value).Some? && View(s1, p) == Done(env, FileOf(frozen, p).value)
    ensures p in s.marked ==> View(s1, p) == View(s, p)
  {
    var run := Attempt(s, frozen);
    if FileOf(run.entries, p).Some? {
      var f := FileOf(run.entries, p).value;
      RemainingExactly(frozen, s.marked, f);
      FileOfUnique(frozen, f);
    } else if FileOf(frozen, p).Some? {
      RemainingExactly(frozen, s.marked, FileOf(frozen, p).value);
    }
  }

  /** An attempt stopped anywhere keeps the marks truthful, keeps them all, and keeps the job's goal. */
  lemma AttemptStopsSafely(env: Env, s: Store, frozen: seq<FileEntry>, plan: seq<Effect>, k: nat)
    requires WellFormed(s) && DistinctPaths(frozen) && MarksHold(env, s, frozen)
    requires IsPlan(env, s, Attempt(s, frozen), plan) && k <= |plan|
    ensures var s1 := ApplyAll(env, s, plan[..k]);
            && WellFormed(s1) && MarksHold(env, s1, frozen) && s.marked <= s1.marked
            && forall p :: JobGoal(env, frozen, View(s1, p), p) == JobGoal(env, frozen, View(s, p), p)
  {
    var run, s1 := Attempt(s, frozen), ApplyAll(env, s, plan[..k]);
    AttemptStartsFine(env, s, frozen);
    StopAnywhere(env, s, run, plan, k);
    FineStoreWellFormed(env, s1, run);
    forall p
      ensures JobGoal(env, frozen, View(s1, p), p) == JobGoal(env, frozen, View(s, p), p)
      ensures p in s.marked ==> p in s1.marked
    {
      AttemptPath(env, s, s1, frozen, p);
    }
    forall f | f in frozen && f.path in s1.marked
      ensures env.parse(f).Some? && View(s1, f.path) == Done(env, f)
    {
      AttemptPath(env, s, s1, frozen, f.path);
      FileOfUnique(frozen, f);
    }
  }

  /** A complete attempt finishes the job. */
  lemma AttemptCompletes(env: Env, s: Store, frozen: seq<FileEntry>, plan: seq<Effect>, p: string)
    requires WellFormed(s) && DistinctPaths(frozen) && MarksHold(env, s, frozen)
    requires IsPlan(env, s, Attempt(s, frozen), plan)
    ensures View(ApplyAll(env, s, plan), p) == JobGoal(env, frozen, View(s, p), p)
  {
    var run := Attempt(s, frozen);
    AttemptStartsFine(env, s, frozen);
    StopAnywhere(env, s, run, plan, 0);
    if FileOf(run.entries, p).Some? {
      RemainingExactly(frozen, s.marked, FileOf(run.entries, p).value);
      FileOfUnique(frozen, FileOf(run.entries, p).value);
    } else if FileOf(frozen, p).Some? {
      RemainingExactly(frozen, s.marked, FileOf(frozen, p).value);
    }
  }

  /** Attempts of one job, each on what is left when it starts, each stopped somewhere. */
  ghost predicate Attempts(env: Env, s: Store, frozen: seq<FileEntry>, cuts: seq<(seq<Effect>, nat)>, s': Store)
    decreases |cuts|
  {
    if cuts == [] then s' == s
    else
      var (plan, k) := cuts[0];
      IsPlan(env, s, Attempt(s, frozen), plan) && k <= |plan| && Attempts(env, ApplyAll(env, s, plan[..k]), frozen, cuts[1..], s')
  }

  /**
  Whatever happens to earlier attempts, the attempt that completes leaves every frozen file that
  parses indexed at its frozen hash and marked, and every other path as the job found it.
  */
  lemma {:induction false} ForceJobConverges(
    env: Env, s: Store, frozen: seq<FileEntry>, cuts: seq<(seq<Effect>, nat)>, s': Store, last: seq<Effect>, p: string)
    requires WellFormed(s) && DistinctPaths(frozen) && MarksHold(env, s, frozen)
    requires Attempts(env, s, frozen, cuts, s') && IsPlan(env, s', Attempt(s', frozen), last)
    ensures View(ApplyAll(env, s', last), p) == JobGoal(env, frozen, View(s, p), p)
    ensures MarksHold(env, s', frozen) && s.marked <= s'.marked
    decreases |cuts|
  {
    if cuts == [] {
      AttemptCompletes(env, s, frozen, last, p);
    } else {
      AttemptStopsSafely(env, s, frozen, cuts[0].0, cuts[0].1);
      ForceJobConverges(env, ApplyAll(env, s, cuts[0].0[..cuts[0].1]), frozen, cuts[1..], s', last, p);
    }
  }

  /** The index holds nothing for a path, as a deletion leaves it. */
  predicate Gone(v: FileView) {
    v.nodes == map[] && v.vectors == map[] && v.record.None?
  }

  /**
  A force job that absorbed a deletion request covers it in the queue and never carries it out: a deleted path ends
  up gone exactly when the store held nothing for it at the start and the manifest does not bring it back.
  */
  lemma ForceJobSkipsDeletions(
    env: Env, s: Store, frozen: seq<FileEntry>, cuts: seq<(seq<Effect>, nat)>, s': Store, last: seq<Effect>, p: string, asked: Jobs.Payload)
    requires WellFormed(s) && DistinctPaths(frozen) && MarksHold(env, s, frozen)
    requires Attempts(env, s, frozen, cuts, s') && IsPlan(env, s', Attempt(s', frozen), last)
    requires p in asked.deleted
    ensures var files, force := Jobs.Work(Jobs.Files, asked), Jobs.Work(Jobs.ForceFull, Jobs.NO_PAYLOAD);
      Jobs.Merge(files, force).mode == Jobs.ForceFull && Jobs.Merge(files, force).Covers(files)
    ensures FileOf(frozen, p).None? ==> View(ApplyAll(env, s', last), p) == View(s, p)
    ensures Gone(View(ApplyAll(env, s', last), p)) <==>
            Gone(View(s, p)) && (FileOf(frozen, p).Some? ==> env.parse(FileOf(frozen, p).value).None?)
  {
    ForceJobConverges(env, s, frozen, cuts, s', last, p);
  }

  // ---------------------------------------------------------------- rebuilding frozen entries

  datatype FrozenRecord = FrozenRecord(path: string, hash: string, language: string, size: int)

  datatype SnapshotError = InvalidRecord | NoLongerIngestable | SourceChanged

  predicate UsablePath(path: string) {
    path != "" && path[0] != '/' && !Jobs.Escapes(path)
  }

  /** A manifest may be replayed: usable distinct paths, every source still there and unchanged. */
  ghost predicate Replayable(records: seq<FrozenRecord>, current: string -> Option<FrozenRecord>) {
    && (forall i :: 0 <= i < |records| ==> UsablePath(records[i].path) && current(records[i].path) == Some(records[i]))
    && (forall i, j :: 0 <= i < j < |records| ==> records[i].path != records[j].path)
  }

  /** Rebuild the frozen entries, rejecting every absent or changed target. */
  method EntriesFromForceSnapshot(records: seq<FrozenRecord>, current: string -> Option<FrozenRecord>)
    returns (r: Result<seq<FileEntry>, SnapshotError>)
    requires forall p :: current(p).Some? ==> current(p).value.path == p
    ensures r.Ok? <==> Replayable(records, current)
    ensures r.Ok? ==> DistinctPaths(r.value) && |r.value| == |records|
    ensures r.Ok? ==> forall i :: 0 <= i < |records| ==> r.value[i] == FileEntry(records[i].path, records[i].hash)
  {
    var entries: seq<FileEntry> := [];
    var expected: set<string> := {};
    var i := 0;
    while i < |records|
      invariant 0 <= i <= |records| && |entries| == i
      invariant Replayable(records[..i], current)
      invariant forall k :: 0 <= k < i ==> entries[k] == FileEntry(records[k].path, records[k].hash)
      invariant forall p :: p in expected <==> exists k :: 0 <= k < i && records[k].path == p
    {
      var record := records[i];
      if !UsablePath(record.path) || record.path in expected {
        return Err(InvalidRecord);
      }
      expected := expected + {record.path};
      var entry := current(record.path);
      if entry.None? {
        return Err(NoLongerIngestable);
      }
      if entry.value.hash != record.hash || entry.value.language != record.language || entry.value.size != record.size {
        return Err(SourceChanged);
      }
      entries := entries + [FileEntry(entry.value.path, entry.value.hash)];
      i := i + 1;
    }
    assert records[..|records|] == records;
    r := Ok(entries);
  }
}
