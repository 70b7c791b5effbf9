/**
Jobs for explicitly changed and deleted files (src/scs/indexing/pipeline.py:304-329), and what coalescing two of
them does to the index (src/scs/indexing/jobs.py:223-231).

A job indexes its changed files first and deletes its deleted paths last, so a path named in both is deleted.
*/
module FilesJobs {
  import opened Outcome
  import opened Pipeline
  import opened FileViews
  import opened CrashReplay
  import opened Convergence
  import opened ReplacedRuns
  import Jobs
  import MergeLaws

  /** The sources as they are when a job runs: the entry of each path that can be indexed. */
  type Sources = string -> Option<FileEntry>

  /** The entries built for some changed paths; a path that is gone has none. */
  ghost predicate EntriesOf(entries: seq<FileEntry>, source: Sources, files: set<string>) {
    DistinctPaths(entries) && forall p :: FileOf(entries, p) == if p in files then source(p) else None
  }

  function FilesRun(entries: seq<FileEntry>): Run {
    Run(entries, false, false, false)
  }

  /** A complete plan of a job: an incremental run over its files, then the deletions in any batching. */
  ghost predicate IsFilesPlan(env: Env, s: Store, entries: seq<FileEntry>, deleted: set<string>, plan: seq<Effect>) {
    exists main, sweeps ::
      IsPlan(env, s, FilesRun(entries), main) && Covers(sweeps, deleted) && plan == main + SweepEffects(sweeps)
  }

  /**
  What an execution of a job has done when a crash, a cancellation or an outage ends it: part of the run, then
  part of the deletions.  An outage ends only the run, so the deletions may follow a run that stopped early.
  */
  ghost predicate IsPart(
    env: Env, s: Store, entries: seq<FileEntry>, deleted: set<string>,
    main: seq<Effect>, n: nat, sweeps: seq<set<string>>, m: nat)
  {
    && IsPlan(env, s, FilesRun(entries), main) && n <= |main|
    && Covers(sweeps, deleted) && m <= |SweepEffects(sweeps)|
  }

  ghost predicate PartOfJob(env: Env, s: Store, entries: seq<FileEntry>, deleted: set<string>, log: seq<Effect>) {
    exists main, n: nat, sweeps, m: nat ::
      IsPart(env, s, entries, deleted, main, n, sweeps, m) && log == main[..n] + SweepEffects(sweeps)[..m]
  }

  const NOTHING := FileView(map[], map[], None, false)

  /** What a complete job makes of a path. */
  function FilesGoal(env: Env, entries: seq<FileEntry>, deleted: set<string>, v: FileView, p: string): FileView {
    if p in deleted then NOTHING.(marked := v.marked) else Goal(env, FilesRun(entries), v, p)
  }

  // ---------------------------------------------------------------- one job

  lemma SweepErases(env: Env, v: FileView, sweeps: seq<set<string>>, p: string)
    requires Sane(v)
    ensures ApplyViews(env, v, SweepEffects(sweeps), p)
         == if exists i :: 0 <= i < |sweeps| && p in sweeps[i] then NOTHING.(marked := v.marked) else v
  {
    SweepForgetsUndiscovered(env, Run([], false, true, false), v, sweeps, p);
  }

  lemma {:induction false} ApplyAllConcat(env: Env, s: Store, a: seq<Effect>, b: seq<Effect>)
    ensures ApplyAll(env, s, a + b) == ApplyAll(env, ApplyAll(env, s, a), b)
    decreases |b|
  {
    if b == [] {
      assert a + b == a;
    } else {
      assert (a + b)[..|a + b| - 1] == a + b[..|b| - 1];
      ApplyAllConcat(env, s, a, b[..|b| - 1]);
    }
  }

  lemma SaneStore(s: Store)
    requires forall p :: Sane(View(s, p))
    ensures WellFormed(s)
  {
    forall id | id in s.vectors
      ensures id in s.nodes
    {
      assert Sane(View(s, id.path)) && id in View(s, id.path).vectors;
    }
  }

  lemma SweepOf(env: Env, s: Store, sweeps: seq<set<string>>, deleted: set<string>, p: string)
    requires WellFormed(s) && Covers(sweeps, deleted)
    ensures View(ApplyAll(env, s, SweepEffects(sweeps)), p) == if p in deleted then NOTHING.(marked := View(s, p).marked) else View(s, p)
  {
    SweepProper(sweeps);
    EffectsArePathwise(env, s, SweepEffects(sweeps), p);
    SweepErases(env, View(s, p), sweeps, p);
  }

  /** A complete job deletes its deleted paths, indexes its other changed files, and touches nothing else. */
  lemma FilesJobEffect(env: Env, s: Store, entries: seq<FileEntry>, deleted: set<string>, plan: seq<Effect>)
    requires WellFormed(s) && DistinctPaths(entries) && IsFilesPlan(env, s, entries, deleted, plan)
    ensures WellFormed(ApplyAll(env, s, plan))
    ensures forall p :: View(ApplyAll(env, s, plan), p) == FilesGoal(env, entries, deleted, View(s, p), p)
  {
    var main, sweeps :| IsPlan(env, s, FilesRun(entries), main) && Covers(sweeps, deleted) && plan == main + SweepEffects(sweeps);
    var s1 := ApplyAll(env, s, main);
    ApplyAllConcat(env, s, main, SweepEffects(sweeps));
    CompleteRunWellFormed(env, s, FilesRun(entries), main);
    forall p
      ensures View(ApplyAll(env, s, plan), p) == FilesGoal(env, entries, deleted, View(s, p), p)
      ensures Sane(View(ApplyAll(env, s, plan), p))
    {
      CompleteRun(env, s, FilesRun(entries), main, p);
      SweepOf(env, s1, sweeps, deleted, p);
    }
    SaneStore(ApplyAll(env, s, plan));
  }

  // ---------------------------------------------------------------- a job that crashes

  /**
  What crashes can do to a job: its deletions are repeated in any case, and its files are indexed again unless they
  look up to date.
  */
  ghost predicate Retryable(env: Env, s: Store, entries: seq<FileEntry>, deleted: set<string>) {
    forall p :: p in deleted || Resumable(env, FilesRun(entries), View(s, p), p)
  }

  /** The same outcome is still ahead, and a retry meets no trap. */
  ghost predicate SameOutcome(env: Env, entries: seq<FileEntry>, deleted: set<string>, v: FileView, now: FileView, p: string) {
    && FilesGoal(env, entries, deleted, now, p) == FilesGoal(env, entries, deleted, v, p)
    && Sane(now)
    && (p in deleted || Resumable(env, FilesRun(entries), now, p))
  }

  lemma MainStops(env: Env, s: Store, entries: seq<FileEntry>, main: seq<Effect>, n: nat, p: string)
    requires WellFormed(s) && DistinctPaths(entries)
    requires IsPlan(env, s, FilesRun(entries), main) && n <= |main|
    ensures View(ApplyAll(env, s, main[..n]), p).marked == View(s, p).marked && Sane(View(ApplyAll(env, s, main[..n]), p))
  {
    StoppedRunStages(env, s, FilesRun(entries), main, n, p);
    StagesAreSane(env, FilesRun(entries), View(s, p), p);
    StagesKeepMark(env, FilesRun(entries), View(s, p), p);
  }

  lemma MainKeepsGoal(env: Env, s: Store, entries: seq<FileEntry>, main: seq<Effect>, n: nat, p: string)
    requires WellFormed(s) && DistinctPaths(entries) && Resumable(env, FilesRun(entries), View(s, p), p)
    requires IsPlan(env, s, FilesRun(entries), main) && n <= |main|
    ensures var v := View(ApplyAll(env, s, main[..n]), p);
      Goal(env, FilesRun(entries), v, p) == Goal(env, FilesRun(entries), View(s, p), p) && Resumable(env, FilesRun(entries), v, p)
  {
    var run := FilesRun(entries);
    var sweeps, batches :| Batched(env, s, run, sweeps, batches) && main == PlanOf(env, s, run, sweeps, batches);
    assert Fine(env, run, View(s, p), p);
    PathReplay(env, s, run, sweeps, batches, p);
    PlanProper(env, s, run, main);
    EffectsArePathwise(env, s, main[..n], p);
  }

  /** A part of a job cut short once more is a part of it. */
  lemma PartOfPart(env: Env, s: Store, entries: seq<FileEntry>, deleted: set<string>, log: seq<Effect>, k: nat)
    requires PartOfJob(env, s, entries, deleted, log) && k <= |log|
    ensures PartOfJob(env, s, entries, deleted, log[..k])
  {
    var main, n: nat, sweeps, m: nat :|
      IsPart(env, s, entries, deleted, main, n, sweeps, m) && log == main[..n] + SweepEffects(sweeps)[..m];
    var n', m' := if k <= n then k else n, if k <= n then 0 else k - n;
    assert IsPart(env, s, entries, deleted, main, n', sweeps, m');
    assert log[..k] == main[..n'] + SweepEffects(sweeps)[..m'];
  }

  lemma PartialSweep(env: Env, s: Store, sweeps: seq<set<string>>, deleted: set<string>, k: nat, p: string)
    requires Covers(sweeps, deleted) && k <= |SweepEffects(sweeps)|
    ensures var v := View(ApplyAll(env, s, SweepEffects(sweeps)[..k]), p);
      SweepShape(View(s, p), v) && (p !in deleted ==> v == View(s, p))
  {
    var effects := SweepEffects(sweeps);
    SweepProper(sweeps);
    EffectsArePathwise(env, s, effects[..k], p);
    RecordOutlivesNodes(env, View(s, p), sweeps, p, k);
    if p !in deleted {
      SweepSpares(sweeps, p);
      SparedView(env, View(s, p), effects[..k], p);
    }
  }

  /** Wherever an execution ends, a complete one on the same sources still has the same outcome. */
  lemma FilesJobStops(env: Env, s: Store, entries: seq<FileEntry>, deleted: set<string>, log: seq<Effect>, p: string)
    requires WellFormed(s) && DistinctPaths(entries) && PartOfJob(env, s, entries, deleted, log)
    requires p in deleted || Resumable(env, FilesRun(entries), View(s, p), p)
    ensures SameOutcome(env, entries, deleted, View(s, p), View(ApplyAll(env, s, log), p), p)
  {
    var main, n: nat, sweeps, m: nat :|
      IsPart(env, s, entries, deleted, main, n, sweeps, m) && log == main[..n] + SweepEffects(sweeps)[..m];
    MainStops(env, s, entries, main, n, p);
    ApplyAllConcat(env, s, main[..n], SweepEffects(sweeps)[..m]);
    PartialSweep(env, ApplyAll(env, s, main[..n]), sweeps, deleted, m, p);
    if p !in deleted {
      MainKeepsGoal(env, s, entries, main, n, p);
    }
  }

  lemma PartWellFormed(env: Env, s: Store, entries: seq<FileEntry>, deleted: set<string>, log: seq<Effect>)
    requires WellFormed(s) && DistinctPaths(entries) && PartOfJob(env, s, entries, deleted, log)
    ensures WellFormed(ApplyAll(env, s, log))
  {
    var main, n: nat, sweeps, m: nat :|
      IsPart(env, s, entries, deleted, main, n, sweeps, m) && log == main[..n] + SweepEffects(sweeps)[..m];
    ApplyAllConcat(env, s, main[..n], SweepEffects(sweeps)[..m]);
    forall p
      ensures Sane(View(ApplyAll(env, s, log), p))
    {
      MainStops(env, s, entries, main, n, p);
      PartialSweep(env, ApplyAll(env, s, main[..n]), sweeps, deleted, m, p);
    }
    SaneStore(ApplyAll(env, s, log));
  }

  /** Several executions, each of which ended somewhere; a complete one is still to come. */
  ghost predicate Executed(
    env: Env, s: Store, entries: seq<FileEntry>, deleted: set<string>, logs: seq<seq<Effect>>, s': Store)
    decreases |logs|
  {
    if logs == [] then s' == s
    else PartOfJob(env, s, entries, deleted, logs[0]) && Executed(env, ApplyAll(env, s, logs[0]), entries, deleted, logs[1..], s')
  }

  lemma {:induction false} ExecutionsKeepOutcome(
    env: Env, s: Store, entries: seq<FileEntry>, deleted: set<string>, logs: seq<seq<Effect>>, s': Store)
    requires WellFormed(s) && DistinctPaths(entries) && Retryable(env, s, entries, deleted)
    requires Executed(env, s, entries, deleted, logs, s')
    ensures forall p :: SameOutcome(env, entries, deleted, View(s, p), View(s', p), p)
    decreases |logs|
  {
    if logs != [] {
      var s1 := ApplyAll(env, s, logs[0]);
      PartWellFormed(env, s, entries, deleted, logs[0]);
      forall p
        ensures SameOutcome(env, entries, deleted, View(s, p), View(s1, p), p)
      {
        FilesJobStops(env, s, entries, deleted, logs[0], p);
      }
      ExecutionsKeepOutcome(env, s1, entries, deleted, logs[1..], s');
      forall p
        ensures SameOutcome(env, entries, deleted, View(s, p), View(s', p), p)
      {
        assert SameOutcome(env, entries, deleted, View(s1, p), View(s', p), p);
      }
    }
  }

  /**
  However often a job is ended by a crash, a cancellation or an outage, and wherever, the execution that completes
  leaves what a single undisturbed one would have left.
  */
  lemma FilesJobConverges(
    env: Env, s: Store, entries: seq<FileEntry>, deleted: set<string>, plan: seq<Effect>,
    logs: seq<seq<Effect>>, s': Store, again: seq<Effect>)
    requires WellFormed(s) && DistinctPaths(entries) && Retryable(env, s, entries, deleted)
    requires IsFilesPlan(env, s, entries, deleted, plan)
    requires Executed(env, s, entries, deleted, logs, s') && IsFilesPlan(env, s', entries, deleted, again)
    ensures ApplyAll(env, s', again) == ApplyAll(env, s, plan)
  {
    ExecutionsKeepOutcome(env, s, entries, deleted, logs, s');
    SaneStore(s');
    FilesJobEffect(env, s, entries, deleted, plan);
    FilesJobEffect(env, s', entries, deleted, again);
    forall p
      ensures View(ApplyAll(env, s', again), p) == View(ApplyAll(env, s, plan), p)
    {
      assert SameOutcome(env, entries, deleted, View(s, p), View(s', p), p);
    }
    ViewsDetermineStore(ApplyAll(env, s', again), ApplyAll(env, s, plan));
  }

  // ---------------------------------------------------------------- exactly when it converges

  ghost predicate JobConverges(env: Env, s: Store, entries: seq<FileEntry>, deleted: set<string>) {
    forall plan, log, again ::
      IsFilesPlan(env, s, entries, deleted, plan) && PartOfJob(env, s, entries, deleted, log) &&
      IsFilesPlan(env, ApplyAll(env, s, log), entries, deleted, again) ==>
        ApplyAll(env, ApplyAll(env, s, log), again) == ApplyAll(env, s, plan)
  }

  /** A plan that deletes everything in one batch. */
  function OneFilesPlan(env: Env, s: Store, entries: seq<FileEntry>, deleted: set<string>): (plan: seq<Effect>)
    ensures IsFilesPlan(env, s, entries, deleted, plan)
  {
    assert forall p :: p in deleted ==> p in [deleted][0];
    assert Covers([deleted], deleted);
    OnePlan(env, s, FilesRun(entries)) + SweepEffects([deleted])
  }

  lemma StopIsPart(env: Env, s: Store, entries: seq<FileEntry>, deleted: set<string>, k: nat)
    requires k <= |OnePlan(env, s, FilesRun(entries))|
    ensures PartOfJob(env, s, entries, deleted, OnePlan(env, s, FilesRun(entries))[..k])
  {
    var main := OnePlan(env, s, FilesRun(entries));
    assert forall p :: p in deleted ==> p in [deleted][0];
    assert IsPart(env, s, entries, deleted, main, k, [deleted], 0);
    assert main[..k] == main[..k] + SweepEffects([deleted])[..0];
  }

  /** A file that looks up to date once its nodes are gone is not indexed again. */
  lemma EmptiedStaysEmpty(env: Env, entries: seq<FileEntry>, v: FileView, p: string)
    requires !Resumable(env, FilesRun(entries), v, p)
    ensures Touches(env, FilesRun(entries), v, p) && FileOf(entries, p).Some?
    ensures Goal(env, FilesRun(entries), Cleared(v), p) != Goal(env, FilesRun(entries), v, p)
  {
    assert Goal(env, FilesRun(entries), Cleared(v), p).nodes == map[];
  }

  lemma DifferentOutcomes(
    env: Env, s: Store, s1: Store, entries: seq<FileEntry>, deleted: set<string>, p: string, plan: seq<Effect>, again: seq<Effect>)
    requires WellFormed(s) && WellFormed(s1) && DistinctPaths(entries)
    requires IsFilesPlan(env, s, entries, deleted, plan) && IsFilesPlan(env, s1, entries, deleted, again)
    requires FilesGoal(env, entries, deleted, View(s1, p), p) != FilesGoal(env, entries, deleted, View(s, p), p)
    ensures ApplyAll(env, s1, again) != ApplyAll(env, s, plan)
  {
    FilesJobEffect(env, s, entries, deleted, plan);
    FilesJobEffect(env, s1, entries, deleted, again);
    assert View(ApplyAll(env, s1, again), p) != View(ApplyAll(env, s, plan), p);
  }

  lemma CrashedFileIsForgotten(env: Env, s: Store, entries: seq<FileEntry>, deleted: set<string>, p: string)
    requires WellFormed(s) && DistinctPaths(entries)
    requires p !in deleted && !Resumable(env, FilesRun(entries), View(s, p), p)
    ensures !JobConverges(env, s, entries, deleted)
  {
    EmptiedStaysEmpty(env, entries, View(s, p), p);
    var k := StopAfterDeletion(env, s, FilesRun(entries), p);
    var log := OnePlan(env, s, FilesRun(entries))[..k];
    StopIsPart(env, s, entries, deleted, k);
    PartWellFormed(env, s, entries, deleted, log);
    var s1 := ApplyAll(env, s, log);
    var plan, again := OneFilesPlan(env, s, entries, deleted), OneFilesPlan(env, s1, entries, deleted);
    DifferentOutcomes(env, s, s1, entries, deleted, p, plan, again);
  }

  /**
  A files job converges after every crash, cancellation and outage exactly when each path is deleted by it, differs
  from its record, or has nothing to insert.
  */
  lemma JobConvergesExactly(env: Env, s: Store, entries: seq<FileEntry>, deleted: set<string>)
    requires WellFormed(s) && DistinctPaths(entries)
    ensures JobConverges(env, s, entries, deleted) <==> Retryable(env, s, entries, deleted)
  {
    if Retryable(env, s, entries, deleted) {
      forall plan, log, again |
        IsFilesPlan(env, s, entries, deleted, plan) && PartOfJob(env, s, entries, deleted, log) &&
        IsFilesPlan(env, ApplyAll(env, s, log), entries, deleted, again)
        ensures ApplyAll(env, ApplyAll(env, s, log), again) == ApplyAll(env, s, plan)
      {
        OneExecution(env, s, entries, deleted, log);
        FilesJobConverges(env, s, entries, deleted, plan, [log], ApplyAll(env, s, log), again);
      }
    } else {
      var p :| p !in deleted && !Resumable(env, FilesRun(entries), View(s, p), p);
      CrashedFileIsForgotten(env, s, entries, deleted, p);
    }
  }

  lemma OneExecution(env: Env, s: Store, entries: seq<FileEntry>, deleted: set<string>, log: seq<Effect>)
    requires PartOfJob(env, s, entries, deleted, log)
    ensures Executed(env, s, entries, deleted, [log], ApplyAll(env, s, log))
  {
    var logs := [log];
    assert logs[1..] == [];
  }

  // ---------------------------------------------------------------- two jobs against their merge

  /** A path the first job deletes and the second one indexes again. */
  predicate Revived(env: Env, source: Sources, first: Jobs.Payload, second: Jobs.Payload, p: string) {
    p in first.deleted && p in second.files && p !in second.deleted
    && source(p).Some? && env.parse(source(p).value).Some?
  }

  lemma PathMerges(
    env: Env, source: Sources, first: Jobs.Payload, second: Jobs.Payload,
    a: seq<FileEntry>, b: seq<FileEntry>, both: seq<FileEntry>, v: FileView, p: string)
    requires EntriesOf(a, source, first.files) && EntriesOf(b, source, second.files)
    requires EntriesOf(both, source, first.files + second.files)
    ensures var apart := FilesGoal(env, b, second.deleted, FilesGoal(env, a, first.deleted, v, p), p);
      var merged := FilesGoal(env, both, first.deleted + second.deleted, v, p);
      apart == merged <==> !Revived(env, source, first, second, p)
  {
    assert FileOf(a, p) == if p in first.files then source(p) else None;
    assert FileOf(b, p) == if p in second.files then source(p) else None;
    assert FileOf(both, p) == if p in first.files + second.files then source(p) else None;
    if p in first.deleted && p !in second.deleted {
      RevivedGoal(env, b, v, p);
    } else if p !in first.deleted && p !in second.deleted {
      GoalTwice(env, a, b, both, v, p);
    }
  }

  /** An empty view gains a record exactly when its file is there and parses. */
  lemma RevivedGoal(env: Env, entries: seq<FileEntry>, v: FileView, p: string)
    ensures Goal(env, FilesRun(entries), NOTHING.(marked := v.marked), p) == NOTHING.(marked := v.marked) <==>
            !(FileOf(entries, p).Some? && env.parse(FileOf(entries, p).value).Some?)
  {
  }

  /** Indexing a path in two jobs is indexing it in one. */
  lemma GoalTwice(env: Env, a: seq<FileEntry>, b: seq<FileEntry>, both: seq<FileEntry>, v: FileView, p: string)
    requires FileOf(a, p).Some? && FileOf(b, p).Some? ==> FileOf(a, p) == FileOf(b, p)
    requires FileOf(both, p) == if FileOf(a, p).Some? then FileOf(a, p) else FileOf(b, p)
    ensures Goal(env, FilesRun(b), Goal(env, FilesRun(a), v, p), p) == Goal(env, FilesRun(both), v, p)
  {
  }

  /**
  Two waiting jobs merged into one leave the same index as the two in sequence, on the same sources, exactly when
  no path deleted by the first is indexed again by the second: such a path is missing from the index after the
  merged job.
  */
  lemma CoalescingKeepsFilesExactly(
    env: Env, s: Store, source: Sources, first: Jobs.Payload, second: Jobs.Payload,
    a: seq<FileEntry>, b: seq<FileEntry>, both: seq<FileEntry>,
    planA: seq<Effect>, planB: seq<Effect>, planBoth: seq<Effect>)
    requires WellFormed(s)
    requires EntriesOf(a, source, first.files) && IsFilesPlan(env, s, a, first.deleted, planA)
    requires EntriesOf(b, source, second.files) && IsFilesPlan(env, ApplyAll(env, s, planA), b, second.deleted, planB)
    requires var merged := Jobs.Merge(Jobs.Work(Jobs.Files, first), Jobs.Work(Jobs.Files, second)).payload;
      EntriesOf(both, source, merged.files) && IsFilesPlan(env, s, both, merged.deleted, planBoth)
    ensures ApplyAll(env, ApplyAll(env, s, planA), planB) == ApplyAll(env, s, planBoth) <==>
            forall p :: !Revived(env, source, first, second, p)
  {
    var s1 := ApplyAll(env, s, planA);
    var apart, together := ApplyAll(env, s1, planB), ApplyAll(env, s, planBoth);
    FilesJobEffect(env, s, a, first.deleted, planA);
    FilesJobEffect(env, s1, b, second.deleted, planB);
    FilesJobEffect(env, s, both, first.deleted + second.deleted, planBoth);
    forall p
      ensures View(apart, p) == View(together, p) <==> !Revived(env, source, first, second, p)
    {
      PathMerges(env, source, first, second, a, b, both, View(s, p), p);
    }
    if forall p :: !Revived(env, source, first, second, p) {
      ViewsDetermineStore(apart, together);
    }
  }

  /** In that case the merged job covers both requests, and still leaves an existing file without nodes and record. */
  lemma RevivedFileIsLost(
    env: Env, s: Store, source: Sources, first: Jobs.Payload, second: Jobs.Payload, both: seq<FileEntry>, plan: seq<Effect>, p: string)
    requires WellFormed(s) && DistinctPaths(both) && Revived(env, source, first, second, p)
    requires var merged := Jobs.Merge(Jobs.Work(Jobs.Files, first), Jobs.Work(Jobs.Files, second)).payload;
      IsFilesPlan(env, s, both, merged.deleted, plan)
    ensures Jobs.Merge(Jobs.Work(Jobs.Files, first), Jobs.Work(Jobs.Files, second)).Covers(Jobs.Work(Jobs.Files, second))
    ensures View(ApplyAll(env, s, plan), p).nodes == map[] && View(ApplyAll(env, s, plan), p).record.None?
  {
    MergeLaws.MergeIsUpperBound(Jobs.Work(Jobs.Files, first), Jobs.Work(Jobs.Files, second));
    FilesJobEffect(env, s, both, first.deleted + second.deleted, plan);
  }
}
