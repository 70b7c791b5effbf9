/** The pipeline's guarantees for whole stores: crash replay, its exact condition, and indexing from scratch. */
module Convergence {
  import opened Outcome
  import opened Batching
  import opened Pipeline
  import opened FileViews
  import opened CrashReplay

  // ---------------------------------------------------------------- one path through one plan

  ghost predicate Batched(env: Env, s: Store, run: Run, sweeps: seq<set<string>>, batches: seq<seq<FileEntry>>) {
    && Covers(sweeps, if run.sweep then Stale(s, run) else {})
    && Join(batches) == Parsed(env, s, run, run.entries)
  }

  function Main(env: Env, s: Store, run: Run, batches: seq<seq<FileEntry>>): seq<Effect> {
    var parsed := Parsed(env, s, run, run.entries);
    (if parsed == [] then [] else [Clear(PathsOf(parsed)), Insert(parsed)]) + AckEffects(env, run, batches)
  }

  lemma StaleAt(s: Store, run: Run, p: string)
    ensures p in Stale(s, run) ==> FileOf(run.entries, p).None?
    ensures p !in Stale(s, run) && FileOf(run.entries, p).None? ==> View(s, p).nodes == map[] && View(s, p).record.None?
  {
  }

  lemma PathReplay(env: Env, s: Store, run: Run, sweeps: seq<set<string>>, batches: seq<seq<FileEntry>>, p: string)
    requires ProperRun(run) && Fine(env, run, View(s, p), p) && Unmarked(run, View(s, p), p)
    requires Batched(env, s, run, sweeps, batches)
    ensures Steady(env, run, View(s, p), PlanOf(env, s, run, sweeps, batches), p)
    ensures ApplyViews(env, View(s, p), PlanOf(env, s, run, sweeps, batches), p) == Goal(env, run, View(s, p), p)
  {
    var v, main := View(s, p), Main(env, s, run, batches);
    assert PlanOf(env, s, run, sweeps, batches) == SweepEffects(sweeps) + main;
    StaleAt(s, run, p);
    if FileOf(run.entries, p).Some? {
      SweepSparesDiscovered(env, run, v, sweeps, p);
      MainReplay(env, s, run, batches, p);
    } else {
      if run.sweep {
        SweepForgetsUndiscovered(env, run, v, sweeps, p);
      } else {
        SweepSparesDiscovered(env, run, v, sweeps, p);
      }
      var v' := ApplyViews(env, v, SweepEffects(sweeps), p);
      assert SweepEffects(sweeps)[..|SweepEffects(sweeps)|] == SweepEffects(sweeps);
      OnlyEntriesParsed(env, s, run, p);
      var parsed := Parsed(env, s, run, run.entries);
      if parsed != [] {
        MainSparesOthers(env, run, v', parsed, batches, p);
      } else {
        AcksSpareOthers(env, run, v', batches, p);
        assert [] + AckEffects(env, run, batches) == AckEffects(env, run, batches);
      }
      if p !in Stale(s, run) {
        assert v.vectors == map[];
      }
    }
    SteadyConcat(env, run, v, SweepEffects(sweeps), main, p);
    ApplyViewsConcat(env, v, SweepEffects(sweeps), main, p);
  }

  // ---------------------------------------------------------------- plans act pathwise

  lemma {:induction false} SweepProper(sweeps: seq<set<string>>)
    ensures forall i :: 0 <= i < |SweepEffects(sweeps)| ==> Proper(SweepEffects(sweeps)[i])
    decreases |sweeps|
  {
    if sweeps != [] {
      SweepProper(sweeps[..|sweeps| - 1]);
    }
  }

  lemma {:induction false} AcksProper(env: Env, run: Run, batches: seq<seq<FileEntry>>)
    requires DistinctPaths(Join(batches))
    ensures forall i :: 0 <= i < |AckEffects(env, run, batches)| ==> Proper(AckEffects(env, run, batches)[i])
    decreases |batches|
  {
    if batches != [] {
      DistinctParts(batches[0], Join(batches[1..]));
      AcksProper(env, run, batches[1..]);
      assert forall i :: 0 <= i < |BatchEffects(env, run, batches[0])| ==> Proper(BatchEffects(env, run, batches[0])[i]);
    }
  }

  lemma PlanProper(env: Env, s: Store, run: Run, plan: seq<Effect>)
    requires DistinctPaths(run.entries) && IsPlan(env, s, run, plan)
    ensures forall i :: 0 <= i < |plan| ==> Proper(plan[i])
  {
    var sweeps, batches :| Batched(env, s, run, sweeps, batches) && plan == PlanOf(env, s, run, sweeps, batches);
    assert Batched(env, s, run, sweeps, batches);
    var parsed := Parsed(env, s, run, run.entries);
    SweepProper(sweeps);
    ParsedDistinct(env, s, run, run.entries);
    assert DistinctPaths(parsed) && Join(batches) == parsed;
    AcksProper(env, run, batches);
    forall i | 0 <= i < |plan|
      ensures Proper(plan[i])
    {
      assert plan[i] in SweepEffects(sweeps) || plan[i] in [Clear(PathsOf(parsed)), Insert(parsed)] || plan[i] in AckEffects(env, run, batches);
    }
  }

  /** A plan with one sweep batch and one acknowledgement batch. */
  lemma SomePlan(env: Env, s: Store, run: Run)
    ensures IsPlan(env, s, run, PlanOf(env, s, run, [if run.sweep then Stale(s, run) else {}], [Parsed(env, s, run, run.entries)]))
  {
    var parsed := Parsed(env, s, run, run.entries);
    var sweeps := [if run.sweep then Stale(s, run) else {}];
    assert Join([parsed]) == parsed + Join([parsed][1..]) == parsed;
    assert forall p :: p in (if run.sweep then Stale(s, run) else {}) ==> p in sweeps[0];
    assert Batched(env, s, run, sweeps, [parsed]);
  }

  // ---------------------------------------------------------------- crash replay

  ghost predicate FineStore(env: Env, s: Store, run: Run) {
    forall p :: Fine(env, run, View(s, p), p)
  }

  ghost predicate UnmarkedStore(s: Store, run: Run) {
    forall p :: Unmarked(run, View(s, p), p)
  }

  /** Wherever a run stops, every path can still reach the goal it had; a run that completes has reached it. */
  lemma StopAnywhere(env: Env, s: Store, run: Run, plan: seq<Effect>, k: nat)
    requires ProperRun(run) && FineStore(env, s, run) && UnmarkedStore(s, run)
    requires IsPlan(env, s, run, plan) && k <= |plan|
    ensures var s1 := ApplyAll(env, s, plan[..k]);
            && FineStore(env, s1, run)
            && forall p :: Goal(env, run, View(s1, p), p) == Goal(env, run, View(s, p), p)
    ensures forall p :: View(ApplyAll(env, s, plan), p) == Goal(env, run, View(s, p), p)
  {
    var sweeps, batches :| Batched(env, s, run, sweeps, batches) && plan == PlanOf(env, s, run, sweeps, batches);
    PlanProper(env, s, run, plan);
    forall p
      ensures Fine(env, run, View(ApplyAll(env, s, plan[..k]), p), p)
      ensures Goal(env, run, View(ApplyAll(env, s, plan[..k]), p), p) == Goal(env, run, View(s, p), p)
      ensures View(ApplyAll(env, s, plan), p) == Goal(env, run, View(s, p), p)
    {
      PathReplay(env, s, run, sweeps, batches, p);
      EffectsArePathwise(env, s, plan[..k], p);
      EffectsArePathwise(env, s, plan, p);
    }
  }

  /** Several runs, each stopped somewhere; a complete rerun on the same sources is still to come. */
  ghost predicate Stops(env: Env, s: Store, run: Run, cuts: seq<(seq<Effect>, nat)>, s': Store)
    decreases |cuts|
  {
    if cuts == [] then s' == s
    else
      var (plan, k) := cuts[0];
      IsPlan(env, s, run, plan) && k <= |plan| && Stops(env, ApplyAll(env, s, plan[..k]), run, cuts[1..], s')
  }

  /** However often a run is stopped, a complete rerun leaves the store an undisturbed run would have left. */
  lemma {:induction false} CrashReplayConverges(
    env: Env, s: Store, run: Run, plan: seq<Effect>, cuts: seq<(seq<Effect>, nat)>, s': Store, again: seq<Effect>)
    requires ProperRun(run) && !run.manifest && FineStore(env, s, run) && IsPlan(env, s, run, plan)
    requires Stops(env, s, run, cuts, s') && IsPlan(env, s', run, again)
    ensures ApplyAll(env, s', again) == ApplyAll(env, s, plan)
    decreases |cuts|
  {
    StopAnywhere(env, s, run, plan, 0);
    if cuts == [] {
      StopAnywhere(env, s, run, again, 0);
    } else {
      var (p0, k) := cuts[0];
      StopAnywhere(env, s, run, p0, k);
      var s1 := ApplyAll(env, s, p0[..k]);
      SomePlan(env, s1, run);
      var plan1 :| IsPlan(env, s1, run, plan1);
      CrashReplayConverges(env, s1, run, plan1, cuts[1..], s', again);
      StopAnywhere(env, s1, run, plan1, 0);
      forall p ensures View(ApplyAll(env, s1, plan1), p) == View(ApplyAll(env, s, plan), p) { }
      ViewsDetermineStore(ApplyAll(env, s1, plan1), ApplyAll(env, s, plan));
    }
    if cuts == [] {
      forall p ensures View(ApplyAll(env, s', again), p) == View(ApplyAll(env, s, plan), p) { }
      ViewsDetermineStore(ApplyAll(env, s', again), ApplyAll(env, s, plan));
    }
  }

  // ---------------------------------------------------------------- complete runs, without the crash condition

  lemma {:induction false} AcksIgnoreForce(env: Env, run: Run, batches: seq<seq<FileEntry>>)
    ensures AckEffects(env, run.(force := true), batches) == AckEffects(env, run, batches)
    decreases |batches|
  {
    if batches != [] {
      AcksIgnoreForce(env, run, batches[1..]);
    }
  }

  lemma CompletePath(env: Env, s: Store, run: Run, sweeps: seq<set<string>>, batches: seq<seq<FileEntry>>, p: string)
    requires ProperRun(run) && !run.manifest && WellFormed(s) && Batched(env, s, run, sweeps, batches)
    ensures ApplyViews(env, View(s, p), PlanOf(env, s, run, sweeps, batches), p) == Goal(env, run, View(s, p), p)
  {
    var v, forced, main := View(s, p), run.(force := true), Main(env, s, run, batches);
    var parsed := Parsed(env, s, run, run.entries);
    assert PlanOf(env, s, run, sweeps, batches) == SweepEffects(sweeps) + main;
    AcksIgnoreForce(env, run, batches);
    StaleAt(s, run, p);
    ApplyViewsConcat(env, v, SweepEffects(sweeps), main, p);
    if FileOf(run.entries, p).None? && run.sweep {
      SweepForgetsUndiscovered(env, forced, v, sweeps, p);
    } else {
      SweepSparesDiscovered(env, forced, v, sweeps, p);
    }
    var v' := ApplyViews(env, v, SweepEffects(sweeps), p);
    if FileOf(run.entries, p).Some? && Indexes(env, run, v, FileOf(run.entries, p).value) {
      var f := FileOf(run.entries, p).value;
      ParsedDistinct(env, s, run, run.entries);
      ParsedAt(env, s, run, run.entries, f);
      ChangedMatches(env, s, run, f);
      MainIndexesFile(env, forced, v, parsed, batches, f);
    } else {
      OnlyEntriesParsed(env, s, run, p);
      if parsed != [] {
        MainSparesOthers(env, forced, v', parsed, batches, p);
      } else {
        AcksSpareOthers(env, forced, v', batches, p);
        assert [] + AckEffects(env, run, batches) == AckEffects(env, run, batches);
      }
    }
  }

  lemma CompleteRun(env: Env, s: Store, run: Run, plan: seq<Effect>, p: string)
    requires ProperRun(run) && !run.manifest && WellFormed(s) && IsPlan(env, s, run, plan)
    ensures View(ApplyAll(env, s, plan), p) == Goal(env, run, View(s, p), p)
  {
    var sweeps, batches :| Batched(env, s, run, sweeps, batches) && plan == PlanOf(env, s, run, sweeps, batches);
    PlanProper(env, s, run, plan);
    EffectsArePathwise(env, s, plan, p);
    CompletePath(env, s, run, sweeps, batches, p);
  }

  lemma GoalKeepsSane(env: Env, run: Run, v: FileView, p: string)
    requires Sane(v)
    ensures Sane(Goal(env, run, v, p))
    ensures !run.force && !run.manifest ==> Goal(env, run, Goal(env, run, v, p), p) == Goal(env, run, v, p)
  {
  }

  lemma CompleteRunWellFormed(env: Env, s: Store, run: Run, plan: seq<Effect>)
    requires ProperRun(run) && !run.manifest && WellFormed(s) && IsPlan(env, s, run, plan)
    ensures WellFormed(ApplyAll(env, s, plan))
  {
    var s1 := ApplyAll(env, s, plan);
    forall id | id in s1.vectors
      ensures id in s1.nodes
    {
      CompleteRun(env, s, run, plan, id.path);
      GoalKeepsSane(env, run, View(s, id.path), id.path);
      assert id in View(s1, id.path).vectors;
    }
  }

  /** A second complete run on unchanged sources changes nothing. */
  lemma RunIsIdempotent(env: Env, s: Store, run: Run, plan: seq<Effect>, again: seq<Effect>)
    requires ProperRun(run) && !run.force && WellFormed(s) && IsPlan(env, s, run, plan)
    requires IsPlan(env, ApplyAll(env, s, plan), run, again)
    ensures ApplyAll(env, ApplyAll(env, s, plan), again) == ApplyAll(env, s, plan)
  {
    var s1 := ApplyAll(env, s, plan);
    CompleteRunWellFormed(env, s, run, plan);
    forall p
      ensures View(ApplyAll(env, s1, again), p) == View(s1, p)
    {
      CompleteRun(env, s, run, plan, p);
      CompleteRun(env, s1, run, again, p);
      GoalKeepsSane(env, run, View(s, p), p);
    }
    ViewsDetermineStore(ApplyAll(env, s1, again), s1);
  }

  // ---------------------------------------------------------------- exactly when crash replay converges

  ghost predicate Converges(env: Env, s: Store, run: Run) {
    forall plan, k: nat, again ::
      IsPlan(env, s, run, plan) && k <= |plan| && IsPlan(env, ApplyAll(env, s, plan[..k]), run, again) ==>
        ApplyAll(env, ApplyAll(env, s, plan[..k]), again) == ApplyAll(env, s, plan)
  }

  /** Complete runs over stores with different goals for a path leave different stores. */
  lemma DifferentGoals(env: Env, s: Store, s1: Store, run: Run, plan: seq<Effect>, again: seq<Effect>, p: string)
    requires ProperRun(run) && !run.manifest && WellFormed(s) && WellFormed(s1)
    requires IsPlan(env, s, run, plan) && IsPlan(env, s1, run, again)
    requires Goal(env, run, View(s1, p), p) != Goal(env, run, View(s, p), p)
    ensures ApplyAll(env, s1, again) != ApplyAll(env, s, plan)
  {
    CompleteRun(env, s1, run, again, p);
    CompleteRun(env, s, run, plan, p);
  }

  /** A file whose nodes are gone looks up to date, and so it is not repaired. */
  lemma EmptiedIsNotRepaired(env: Env, run: Run, v: FileView, f: FileEntry)
    requires FileOf(run.entries, f.path) == Some(f) && !Resumable(env, run, v, f.path)
    ensures Goal(env, run, v.(nodes := map[], vectors := map[]), f.path) != Goal(env, run, v, f.path)
  {
  }

  /** Where replay fails: a repaired file whose nodes are gone already looks up to date. */
  lemma CrashedRepairIsForgotten(env: Env, s: Store, run: Run, f: FileEntry)
    requires ProperRun(run) && !run.manifest && WellFormed(s)
    requires FileOf(run.entries, f.path) == Some(f) && Indexes(env, run, View(s, f.path), f)
    requires !Resumable(env, run, View(s, f.path), f.path)
    ensures !Converges(env, s, run)
  {
    var sweeps := [if run.sweep then Stale(s, run) else {}];
    var parsed := Parsed(env, s, run, run.entries);
    var plan := PlanOf(env, s, run, sweeps, [parsed]);
    SomePlan(env, s, run);
    ParsedAt(env, s, run, run.entries, f);
    ChangedMatches(env, s, run, f);
    PlanProper(env, s, run, plan);
    CutView(env, s, run, sweeps, parsed, f, plan);
    CutWellFormed(env, s, sweeps[0], PathsOf(parsed), plan[..3]);
    var s1 := ApplyAll(env, s, plan[..3]);
    SomePlan(env, s1, run);
    var again :| IsPlan(env, s1, run, again);
    EmptiedIsNotRepaired(env, run, View(s, f.path), f);
    DifferentGoals(env, s, s1, run, plan, again, f.path);
  }

  lemma CutWellFormed(env: Env, s: Store, stale: set<string>, paths: set<string>, cut: seq<Effect>)
    requires WellFormed(s) && cut == [Clear(stale), Forget(stale), Clear(paths)]
    ensures WellFormed(ApplyAll(env, s, cut))
  {
    assert cut[..2] == [Clear(stale), Forget(stale)] && cut[..2][..1] == [Clear(stale)] && cut[..2][..1][..0] == [];
    assert ApplyAll(env, s, cut[..2][..1]) == Apply(env, s, Clear(stale));
    assert ApplyAll(env, s, cut[..2]) == Apply(env, Apply(env, s, Clear(stale)), Forget(stale));
  }

  lemma CutView(env: Env, s: Store, run: Run, sweeps: seq<set<string>>, parsed: seq<FileEntry>, f: FileEntry, plan: seq<Effect>)
    requires ProperRun(run) && f in parsed && parsed == Parsed(env, s, run, run.entries)
    requires |sweeps| == 1 && sweeps[0] == if run.sweep then Stale(s, run) else {}
    requires plan == PlanOf(env, s, run, sweeps, [parsed]) && FileOf(run.entries, f.path) == Some(f)
    requires forall i :: 0 <= i < |plan| ==> Proper(plan[i])
    ensures |plan| >= 3 && plan[..3] == [Clear(sweeps[0]), Forget(sweeps[0]), Clear(PathsOf(parsed))]
    ensures View(ApplyAll(env, s, plan[..3]), f.path) == View(s, f.path).(nodes := map[], vectors := map[])
  {
    assert sweeps[..0] == [];
    assert SweepEffects(sweeps) == [Clear(sweeps[0]), Forget(sweeps[0])];
    var cut := plan[..3];
    assert cut == [Clear(sweeps[0]), Forget(sweeps[0]), Clear(PathsOf(parsed))];
    StaleAt(s, run, f.path);
    ParsedDistinct(env, s, run, run.entries);
    FileOfUnique(parsed, f);
    PathsOfAt(parsed, f.path);
    EffectsArePathwise(env, s, cut, f.path);
    ApplyViewsTwo(env, View(s, f.path), Clear(sweeps[0]), Forget(sweeps[0]), f.path);
    ApplyViewsSnoc(env, View(s, f.path), [Clear(sweeps[0]), Forget(sweeps[0])], Clear(PathsOf(parsed)), f.path);
    assert cut == [Clear(sweeps[0]), Forget(sweeps[0])] + [Clear(PathsOf(parsed))];
  }

  /**
  A run converges under crashes exactly when every file it indexes differs from its record, or is
  forced, or has nothing to insert.
  */
  lemma ConvergesExactly(env: Env, s: Store, run: Run)
    requires ProperRun(run) && !run.manifest && WellFormed(s)
    ensures Converges(env, s, run) <==> forall p :: Resumable(env, run, View(s, p), p)
  {
    if forall p :: Resumable(env, run, View(s, p), p) {
      assert FineStore(env, s, run);
      forall plan, k: nat, again |
        IsPlan(env, s, run, plan) && k <= |plan| && IsPlan(env, ApplyAll(env, s, plan[..k]), run, again)
        ensures ApplyAll(env, ApplyAll(env, s, plan[..k]), again) == ApplyAll(env, s, plan)
      {
        var s1 := ApplyAll(env, s, plan[..k]);
        assert [(plan, k)][1..] == [];
        assert Stops(env, s1, run, [(plan, k)][1..], s1);
        CrashReplayConverges(env, s, run, plan, [(plan, k)], s1, again);
      }
    } else {
      var p :| !Resumable(env, run, View(s, p), p);
      var f := FileOf(run.entries, p).value;
      CrashedRepairIsForgotten(env, s, run, f);
    }
  }

  // ---------------------------------------------------------------- indexing from scratch

  /** Files recorded at their current hash hold exactly what that hash plans. */
  ghost predicate Faithful(env: Env, s: Store, run: Run) {
    forall f :: f in run.entries && env.parse(f).Some? && View(s, f.path).record == Some(f.hash) ==>
      && View(s, f.path).nodes == Planned(env, f)
      && forall id :: id in View(s, f.path).vectors ==>
           id in Vectors(env, f) && View(s, f.path).vectors[id] == Vectors(env, f)[id]
  }

  lemma GoalFromScratch(env: Env, s: Store, run: Run, p: string)
    requires ProperRun(run) && !run.manifest && run.sweep && s.marked == {} && Faithful(env, s, run)
    requires FileOf(run.entries, p).Some? && env.parse(FileOf(run.entries, p).value).Some?
    ensures Goal(env, run, View(s, p), p) == Goal(env, run, View(EMPTY, p), p)
  {
  }

  /** A file that does not parse is left as it was found. */
  ghost predicate LeftAlone(env: Env, run: Run, p: string) {
    FileOf(run.entries, p).Some? && env.parse(FileOf(run.entries, p).value).None?
  }

  lemma GoalsAgreeExactly(env: Env, s: Store, run: Run, p: string)
    requires ProperRun(run) && !run.manifest && run.sweep && s.marked == {} && Faithful(env, s, run)
    ensures Goal(env, run, View(s, p), p) == Goal(env, run, View(EMPTY, p), p) <==>
            (LeftAlone(env, run, p) ==> View(s, p) == View(EMPTY, p))
  {
    if FileOf(run.entries, p).Some? && !LeftAlone(env, run, p) {
      GoalFromScratch(env, s, run, p);
    }
  }

  /**
  A complete run over any faithful store agrees with indexing the same files into an empty store
  exactly when the store held nothing for the files that do not parse.
  */
  lemma IncrementalEqualsScratchExactly(env: Env, s: Store, run: Run, plan: seq<Effect>, scratch: seq<Effect>)
    requires ProperRun(run) && !run.manifest && run.sweep && s.marked == {} && WellFormed(s) && Faithful(env, s, run)
    requires IsPlan(env, s, run, plan) && IsPlan(env, EMPTY, run, scratch)
    ensures ApplyAll(env, s, plan) == ApplyAll(env, EMPTY, scratch) <==>
            forall f :: f in run.entries && env.parse(f).None? ==> View(s, f.path) == View(EMPTY, f.path)
  {
    var s1, s0 := ApplyAll(env, s, plan), ApplyAll(env, EMPTY, scratch);
    forall p
      ensures View(s1, p) == View(s0, p) <==> (LeftAlone(env, run, p) ==> View(s, p) == View(EMPTY, p))
    {
      CompleteRun(env, s, run, plan, p);
      CompleteRun(env, EMPTY, run, scratch, p);
      GoalsAgreeExactly(env, s, run, p);
    }
    if forall f :: f in run.entries && env.parse(f).None? ==> View(s, f.path) == View(EMPTY, f.path) {
      ViewsDetermineStore(s1, s0);
    } else {
      var f :| f in run.entries && env.parse(f).None? && View(s, f.path) != View(EMPTY, f.path);
      FileOfUnique(run.entries, f);
      assert LeftAlone(env, run, f.path);
    }
  }

  // ---------------------------------------------------------------- deletions, and sources that move

  /** Of an undiscovered path the record goes last: whenever a run stops, no node outlives its record. */
  lemma {:induction false} RecordOutlivesNodes(env: Env, v: FileView, sweeps: seq<set<string>>, p: string, k: nat)
    requires k <= |SweepEffects(sweeps)|
    ensures SweepShape(v, ApplyViews(env, v, SweepEffects(sweeps)[..k], p))
    decreases |sweeps|
  {
    if sweeps != [] {
      var init, last := sweeps[..|sweeps| - 1], sweeps[|sweeps| - 1];
      var n := |SweepEffects(init)|;
      if k <= n {
        assert SweepEffects(sweeps)[..k] == SweepEffects(init)[..k];
        RecordOutlivesNodes(env, v, init, p, k);
      } else {
        RecordOutlivesNodes(env, v, init, p, n);
        assert SweepEffects(init)[..n] == SweepEffects(init);
        var tail := [Clear(last), Forget(last)][..k - n];
        assert SweepEffects(sweeps)[..k] == SweepEffects(init) + tail;
        ApplyViewsConcat(env, v, SweepEffects(init), tail, p);
        assert tail == [Clear(last)] || tail == [Clear(last), Forget(last)];
        var v1 := ApplyViews(env, v, SweepEffects(init), p);
        ApplyViewsOne(env, v1, Clear(last), p);
        ApplyViewsTwo(env, v1, Clear(last), Forget(last), p);
      }
    }
  }

  /**
  Convergence is about unchanged sources: when a run over edited sources stops between deletion and
  insertion and the edit is then undone, the file looks up to date while it has no nodes at all.
  */
  lemma UndoneEditLosesNodes(env: Env, s: Store, edited: FileEntry, original: FileEntry, again: seq<Effect>)
    requires WellFormed(s) && edited.path == original.path && edited.hash != original.hash
    requires env.parse(edited).Some? && Planned(env, original) != map[]
    requires View(s, original.path).record == Some(original.hash)
    requires var stopped := Apply(env, s, Clear({original.path}));
             IsPlan(env, stopped, Run([original], false, false, false), again)
    ensures var run := Run([edited], false, false, false);
            && Parsed(env, s, run, [edited]) == [edited]
            && View(ApplyAll(env, Apply(env, s, Clear({original.path})), again), original.path).nodes == map[]
  {
    var run := Run([original], false, false, false);
    var stopped := Apply(env, s, Clear({original.path}));
    assert [edited][..0] == [];
    ChangedMatches(env, s, Run([edited], false, false, false), edited);
    CompleteRun(env, stopped, run, again, original.path);
    FileOfUnique([original], original);
  }
}
