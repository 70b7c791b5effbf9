/**
A run over sources that have moved on: what a stopped run leaves behind for a different run that follows it
(src/scs/indexing/pipeline.py:348-461).
*/
module ReplacedRuns {
  import opened Outcome
  import opened Batching
  import opened Pipeline
  import opened FileViews
  import opened CrashReplay
  import opened Convergence
  import opened ManifestRuns

  /**
  However the first run is batched and wherever it stops, the second one leaves what it would have left without it.
  Either may be a run of a force job; the marks in its manifest are not part of the index.
  */
  ghost predicate Overrides(env: Env, s: Store, first: Run, second: Run) {
    forall plan, k: nat, again, direct ::
      IsPlan(env, s, first, plan) && k <= |plan| && IsPlan(env, s, second, direct) &&
      IsPlan(env, ApplyAll(env, s, plan[..k]), second, again) ==>
        Bared(ApplyAll(env, ApplyAll(env, s, plan[..k]), again)) == Bared(ApplyAll(env, s, direct))
  }

  // ---------------------------------------------------------------- what can be known before the runs

  /** The run rewrites or removes what is stored for the path. */
  predicate Touches(env: Env, run: Run, v: FileView, p: string) {
    match FileOf(run.entries, p)
    case Some(f) => Indexes(env, run, v, f)
    case None => run.sweep
  }

  predicate LacksVectors(env: Env, v: FileView) {
    env.semantic && exists id :: id in v.nodes && id !in v.vectors
  }

  /**
  The second run makes up for the first at a path that the first touches: it removes the path, or indexes it by
  force or because the recorded hash differs from its own.  Otherwise nothing may be at stake there at all.
  */
  predicate MakesUp(env: Env, first: Run, second: Run, v: FileView, p: string) {
    var left := Goal(env, first, v, p);
    match FileOf(second.entries, p)
    case None => second.sweep
    case Some(f) =>
      && env.parse(f).Some?
      && (second.force || v.record != Some(f.hash)
          || (left.nodes == map[] && Planned(env, f) == map[] && (v.nodes == map[] || LacksVectors(env, v))))
  }

  /** There are no nodes at the path, and the run changes nothing of that. */
  predicate LeavesNothing(env: Env, run: Run, v: FileView, p: string) {
    v.nodes == map[] && Goal(env, run, v, p).(marked := v.marked) == v
  }

  predicate Overridable(env: Env, first: Run, second: Run, v: FileView, p: string) {
    Touches(env, first, v, p) ==> LeavesNothing(env, first, v, p) || MakesUp(env, first, second, v, p)
  }

  // ---------------------------------------------------------------- the stages of a path

  function Cleared(v: FileView): FileView {
    v.(nodes := map[], vectors := map[])
  }

  /** What a stopped run can leave of a path. */
  function Stages(env: Env, run: Run, v: FileView, p: string): set<FileView> {
    var done := Goal(env, run, v, p);
    if !Touches(env, run, v, p) then {v}
    else
      match FileOf(run.entries, p)
      case None => {v, Cleared(v), done}
      case Some(f) => {v, Cleared(v), Cleared(v).(nodes := Planned(env, f)), done.(record := v.record), done}
  }

  ghost predicate Passes(env: Env, v: FileView, effects: seq<Effect>, p: string, stages: set<FileView>) {
    forall k: nat :: k <= |effects| ==> ApplyViews(env, v, effects[..k], p) in stages
  }

  lemma PassesConcat(env: Env, v: FileView, a: seq<Effect>, b: seq<Effect>, p: string, stages: set<FileView>)
    requires Passes(env, v, a, p, stages) && Passes(env, ApplyViews(env, v, a, p), b, p, stages)
    ensures Passes(env, v, a + b, p, stages)
  {
    forall k: nat | k <= |a + b|
      ensures ApplyViews(env, v, (a + b)[..k], p) in stages
    {
      if k <= |a| {
        assert (a + b)[..k] == a[..k];
      } else {
        assert (a + b)[..k] == a + b[..k - |a|];
        ApplyViewsConcat(env, v, a, b[..k - |a|], p);
      }
    }
  }

  lemma PassesOne(env: Env, v: FileView, e: Effect, p: string, stages: set<FileView>)
    requires v in stages && ApplyView(env, v, e, p) in stages
    ensures Passes(env, v, [e], p, stages) && ApplyViews(env, v, [e], p) == ApplyView(env, v, e, p)
  {
    ApplyViewsOne(env, v, e, p);
    forall k: nat | k <= 1
      ensures ApplyViews(env, v, [e][..k], p) in stages
    {
      assert k == 0 || [e][..k] == [e];
    }
  }

  /** The effect has nothing to do with the path. */
  predicate Spares(e: Effect, p: string) {
    match e
    case Clear(paths) => p !in paths
    case Forget(paths) => p !in paths
    case _ => FileOf(e.files, p).None?
  }

  ghost predicate AllSpare(effects: seq<Effect>, p: string) {
    forall i :: 0 <= i < |effects| ==> Spares(effects[i], p)
  }

  lemma {:induction false} SparedView(env: Env, v: FileView, effects: seq<Effect>, p: string)
    requires AllSpare(effects, p)
    ensures ApplyViews(env, v, effects, p) == v
    decreases |effects|
  {
    if effects != [] {
      SparedView(env, v, effects[..|effects| - 1], p);
      assert Spares(effects[|effects| - 1], p);
    }
  }

  lemma PassesSpared(env: Env, v: FileView, effects: seq<Effect>, p: string, stages: set<FileView>)
    requires AllSpare(effects, p) && v in stages
    ensures Passes(env, v, effects, p, stages) && ApplyViews(env, v, effects, p) == v
  {
    forall k: nat | k <= |effects|
      ensures ApplyViews(env, v, effects[..k], p) in stages
    {
      SparedView(env, v, effects[..k], p);
    }
    SparedView(env, v, effects, p);
  }

  lemma {:induction false} SweepSpares(sweeps: seq<set<string>>, p: string)
    requires forall i :: 0 <= i < |sweeps| ==> p !in sweeps[i]
    ensures AllSpare(SweepEffects(sweeps), p)
    decreases |sweeps|
  {
    if sweeps != [] {
      SweepSpares(sweeps[..|sweeps| - 1], p);
    }
  }

  lemma {:induction false} AcksSpare(env: Env, run: Run, batches: seq<seq<FileEntry>>, p: string)
    requires FileOf(Join(batches), p).None?
    ensures AllSpare(AckEffects(env, run, batches), p)
    decreases |batches|
  {
    if batches != [] {
      FileOfConcat(batches[0], Join(batches[1..]), p);
      AcksSpare(env, run, batches[1..], p);
    }
  }

  /** The batch of a file, with everything before and after it sparing the file. */
  lemma {:induction false} AckSplit(env: Env, run: Run, batches: seq<seq<FileEntry>>, f: FileEntry)
    returns (before: seq<Effect>, batch: seq<FileEntry>, after: seq<Effect>)
    requires DistinctPaths(Join(batches)) && f in Join(batches)
    ensures AckEffects(env, run, batches) == before + BatchEffects(env, run, batch) + after
    ensures AllSpare(before, f.path) && AllSpare(after, f.path) && FileOf(batch, f.path) == Some(f)
    decreases |batches|
  {
    var rest := batches[1..];
    DistinctParts(batches[0], Join(rest));
    if f in batches[0] {
      DistinctApart(batches[0], Join(rest), f);
      AcksSpare(env, run, rest, f.path);
      FileOfUnique(batches[0], f);
      before, batch, after := [], batches[0], AckEffects(env, run, rest);
    } else {
      assert f in Join(rest);
      before, batch, after := AckSplit(env, run, rest, f);
      DistinctApart(Join(rest), batches[0], f);
      before := BatchEffects(env, run, batches[0]) + before;
    }
  }

  lemma BatchStages(env: Env, run: Run, v: FileView, batch: seq<FileEntry>, f: FileEntry, stages: set<FileView>)
    requires !run.manifest && FileOf(batch, f.path) == Some(f) && v.vectors == map[]
    requires v in stages && v.(vectors := Vectors(env, f)) in stages
    requires v.(vectors := Vectors(env, f), record := Some(f.hash)) in stages
    ensures Passes(env, v, BatchEffects(env, run, batch), f.path, stages)
    ensures ApplyViews(env, v, BatchEffects(env, run, batch), f.path) == v.(vectors := Vectors(env, f), record := Some(f.hash))
  {
    var v1 := v.(vectors := Vectors(env, f));
    assert v.vectors + Vectors(env, f) == Vectors(env, f);
    PassesOne(env, v1, Ack(batch), f.path, stages);
    if env.semantic {
      PassesOne(env, v, Embed(batch), f.path, stages);
      PassesConcat(env, v, [Embed(batch)], [Ack(batch)], f.path, stages);
      ApplyViewsConcat(env, v, [Embed(batch)], [Ack(batch)], f.path);
      assert BatchEffects(env, run, batch) == [Embed(batch)] + [Ack(batch)];
    } else {
      assert v1 == v;
      assert BatchEffects(env, run, batch) == [Ack(batch)];
    }
  }

  lemma AckStages(env: Env, run: Run, v: FileView, batches: seq<seq<FileEntry>>, f: FileEntry, stages: set<FileView>)
    requires !run.manifest && DistinctPaths(Join(batches)) && f in Join(batches) && v.vectors == map[]
    requires v in stages && v.(vectors := Vectors(env, f)) in stages
    requires v.(vectors := Vectors(env, f), record := Some(f.hash)) in stages
    ensures Passes(env, v, AckEffects(env, run, batches), f.path, stages)
  {
    var before, batch, after := AckSplit(env, run, batches, f);
    PassesSpared(env, v, before, f.path, stages);
    BatchStages(env, run, v, batch, f, stages);
    var v2 := v.(vectors := Vectors(env, f), record := Some(f.hash));
    PassesSpared(env, v2, after, f.path, stages);
    PassesConcat(env, v, before, BatchEffects(env, run, batch), f.path, stages);
    ApplyViewsConcat(env, v, before, BatchEffects(env, run, batch), f.path);
    PassesConcat(env, v, before + BatchEffects(env, run, batch), after, f.path, stages);
  }

  lemma IndexedStages(env: Env, run: Run, v: FileView, parsed: seq<FileEntry>, batches: seq<seq<FileEntry>>, f: FileEntry)
    requires !run.manifest && DistinctPaths(parsed) && f in parsed && Join(batches) == parsed
    requires FileOf(run.entries, f.path) == Some(f) && Indexes(env, run, v, f)
    ensures Passes(env, v, [Clear(PathsOf(parsed)), Insert(parsed)] + AckEffects(env, run, batches), f.path, Stages(env, run, v, f.path))
  {
    var p, stages := f.path, Stages(env, run, v, f.path);
    var v2 := Cleared(v).(nodes := Planned(env, f));
    FileOfUnique(parsed, f);
    PathsOfAt(parsed, p);
    assert map[] + Planned(env, f) == Planned(env, f);
    PassesOne(env, v, Clear(PathsOf(parsed)), p, stages);
    PassesOne(env, Cleared(v), Insert(parsed), p, stages);
    PassesConcat(env, v, [Clear(PathsOf(parsed))], [Insert(parsed)], p, stages);
    ApplyViewsConcat(env, v, [Clear(PathsOf(parsed))], [Insert(parsed)], p);
    assert [Clear(PathsOf(parsed)), Insert(parsed)] == [Clear(PathsOf(parsed))] + [Insert(parsed)];
    assert v2.(vectors := Vectors(env, f)) == Final(env, run, v, f).(record := v.record);
    assert v2.(vectors := Vectors(env, f), record := Some(f.hash)) == Final(env, run, v, f);
    AckStages(env, run, v2, batches, f, stages);
    PassesConcat(env, v, [Clear(PathsOf(parsed)), Insert(parsed)], AckEffects(env, run, batches), p, stages);
  }

  lemma MainSpares(env: Env, s: Store, run: Run, batches: seq<seq<FileEntry>>, p: string)
    requires DistinctPaths(run.entries) && Join(batches) == Parsed(env, s, run, run.entries)
    requires FileOf(run.entries, p).Some? ==> !Indexes(env, run, View(s, p), FileOf(run.entries, p).value)
    ensures AllSpare(Main(env, s, run, batches), p)
  {
    var parsed := Parsed(env, s, run, run.entries);
    OnlyEntriesParsed(env, s, run, p);
    AcksSpare(env, run, batches, p);
    PathsOfAt(parsed, p);
  }

  lemma SweptStages(env: Env, run: Run, v: FileView, sweeps: seq<set<string>>, p: string)
    requires FileOf(run.entries, p).None? && run.sweep
    ensures Passes(env, v, SweepEffects(sweeps), p, Stages(env, run, v, p))
  {
    forall k: nat | k <= |SweepEffects(sweeps)|
      ensures ApplyViews(env, v, SweepEffects(sweeps)[..k], p) in Stages(env, run, v, p)
    {
      RecordOutlivesNodes(env, v, sweeps, p, k);
    }
  }

  lemma MainStages(env: Env, s: Store, run: Run, batches: seq<seq<FileEntry>>, p: string)
    requires DistinctPaths(run.entries) && !run.manifest && Join(batches) == Parsed(env, s, run, run.entries)
    requires FileOf(run.entries, p).Some? || !run.sweep
    ensures Passes(env, View(s, p), Main(env, s, run, batches), p, Stages(env, run, View(s, p), p))
  {
    var v := View(s, p);
    if FileOf(run.entries, p).Some? && Indexes(env, run, v, FileOf(run.entries, p).value) {
      var f := FileOf(run.entries, p).value;
      ParsedDistinct(env, s, run, run.entries);
      ParsedAt(env, s, run, run.entries, f);
      ChangedMatches(env, s, run, f);
      IndexedStages(env, run, v, Parsed(env, s, run, run.entries), batches, f);
    } else {
      MainSpares(env, s, run, batches, p);
      PassesSpared(env, v, Main(env, s, run, batches), p, Stages(env, run, v, p));
    }
  }

  lemma PlanStages(env: Env, s: Store, run: Run, sweeps: seq<set<string>>, batches: seq<seq<FileEntry>>, p: string)
    requires DistinctPaths(run.entries) && !run.manifest && Batched(env, s, run, sweeps, batches)
    ensures Passes(env, View(s, p), PlanOf(env, s, run, sweeps, batches), p, Stages(env, run, View(s, p), p))
  {
    var v, stages, main := View(s, p), Stages(env, run, View(s, p), p), Main(env, s, run, batches);
    assert PlanOf(env, s, run, sweeps, batches) == SweepEffects(sweeps) + main;
    StaleAt(s, run, p);
    if FileOf(run.entries, p).None? && run.sweep {
      SweptStages(env, run, v, sweeps, p);
      MainSpares(env, s, run, batches, p);
      assert SweepEffects(sweeps)[..|SweepEffects(sweeps)|] == SweepEffects(sweeps);
      PassesSpared(env, ApplyViews(env, v, SweepEffects(sweeps), p), main, p, stages);
    } else {
      SweepSpares(sweeps, p);
      PassesSpared(env, v, SweepEffects(sweeps), p, stages);
      MainStages(env, s, run, batches, p);
    }
    PassesConcat(env, v, SweepEffects(sweeps), main, p, stages);
  }

  /** Wherever a run stops, it leaves one of the stages of each path. */
  lemma StoppedRunStages(env: Env, s: Store, run: Run, plan: seq<Effect>, k: nat, p: string)
    requires DistinctPaths(run.entries) && !run.manifest && IsPlan(env, s, run, plan) && k <= |plan|
    ensures View(ApplyAll(env, s, plan[..k]), p) in Stages(env, run, View(s, p), p)
  {
    var sweeps, batches :| Batched(env, s, run, sweeps, batches) && plan == PlanOf(env, s, run, sweeps, batches);
    PlanStages(env, s, run, sweeps, batches, p);
    PlanProper(env, s, run, plan);
    EffectsArePathwise(env, s, plan[..k], p);
  }

  // ---------------------------------------------------------------- the condition suffices

  lemma StagesAreSane(env: Env, run: Run, v: FileView, p: string)
    requires Sane(v)
    ensures forall w :: w in Stages(env, run, v, p) ==> Sane(w)
  {
    forall w | w in Stages(env, run, v, p)
      ensures Sane(w)
    {
      assert Sane(Cleared(v));
    }
  }

  lemma StagesKeepMark(env: Env, run: Run, v: FileView, p: string)
    requires !run.manifest
    ensures forall w :: w in Stages(env, run, v, p) ==> w.marked == v.marked
  {
  }

  /** Every stage comes to the same under the second run. */
  lemma OverridableStage(env: Env, first: Run, second: Run, v: FileView, p: string, w: FileView)
    requires !first.manifest && !second.manifest && Sane(v) && w in Stages(env, first, v, p)
    requires Overridable(env, first, second, v, p)
    ensures Goal(env, second, w, p) == Goal(env, second, v, p)
  {
    StagesKeepMark(env, first, v, p);
    if Touches(env, first, v, p) {
      if LeavesNothing(env, first, v, p) {
        NothingAtStake(env, first, v, p, w);
      } else if FileOf(second.entries, p).Some? {
        var f := FileOf(second.entries, p).value;
        if !second.force && v.record == Some(f.hash) {
          NothingPlanned(env, first, second, v, f, w);
        } else if !second.force {
          OtherHash(env, first, second, v, f, w);
        }
      }
    }
  }

  lemma NothingAtStake(env: Env, first: Run, v: FileView, p: string, w: FileView)
    requires !first.manifest && Sane(v) && w in Stages(env, first, v, p) && LeavesNothing(env, first, v, p)
    ensures w == v
  {
    assert v.vectors == map[];
  }

  lemma OtherHash(env: Env, first: Run, second: Run, v: FileView, f: FileEntry, w: FileView)
    requires !first.manifest && !second.manifest && FileOf(second.entries, f.path) == Some(f) && env.parse(f).Some?
    requires v.record != Some(f.hash) && w in Stages(env, first, v, f.path) && Touches(env, first, v, f.path)
    ensures Goal(env, second, w, f.path) == Goal(env, second, v, f.path)
  {
    var done := Goal(env, first, v, f.path);
    if w == done && w.record == Some(f.hash) {
      assert FileOf(first.entries, f.path) == Some(f);
    }
  }

  lemma NothingPlanned(env: Env, first: Run, second: Run, v: FileView, f: FileEntry, w: FileView)
    requires !first.manifest && !second.manifest && FileOf(second.entries, f.path) == Some(f) && env.parse(f).Some?
    requires Sane(v) && w in Stages(env, first, v, f.path) && Touches(env, first, v, f.path)
    requires !second.force && v.record == Some(f.hash)
    requires Goal(env, first, v, f.path).nodes == map[] && Planned(env, f) == map[] && (v.nodes == map[] || LacksVectors(env, v))
    ensures Goal(env, second, w, f.path) == Goal(env, second, v, f.path)
  {
    var empty := FileView(map[], map[], Some(f.hash), v.marked);
    assert Vectors(env, f) == map[];
    assert Goal(env, second, v, f.path) == empty;
    if w != v {
      assert w.nodes == map[] && w.vectors == map[];
    }
  }

  lemma StoppedRunIsWellFormed(env: Env, s: Store, run: Run, plan: seq<Effect>, k: nat)
    requires DistinctPaths(run.entries) && !run.manifest && WellFormed(s) && IsPlan(env, s, run, plan) && k <= |plan|
    ensures WellFormed(ApplyAll(env, s, plan[..k]))
  {
    var s1 := ApplyAll(env, s, plan[..k]);
    forall id | id in s1.vectors
      ensures id in s1.nodes
    {
      StoppedRunStages(env, s, run, plan, k, id.path);
      StagesAreSane(env, run, View(s, id.path), id.path);
      assert id in View(s1, id.path).vectors;
    }
  }

  lemma OverridablePathsConverge(
    env: Env, s: Store, first: Run, second: Run, plan: seq<Effect>, k: nat, again: seq<Effect>, direct: seq<Effect>)
    requires ProperRun(first) && !first.manifest && ProperRun(second) && !second.manifest && WellFormed(s)
    requires forall p :: Overridable(env, first, second, View(s, p), p)
    requires IsPlan(env, s, first, plan) && k <= |plan| && IsPlan(env, s, second, direct)
    requires IsPlan(env, ApplyAll(env, s, plan[..k]), second, again)
    ensures ApplyAll(env, ApplyAll(env, s, plan[..k]), again) == ApplyAll(env, s, direct)
  {
    var s1 := ApplyAll(env, s, plan[..k]);
    StoppedRunIsWellFormed(env, s, first, plan, k);
    forall p
      ensures View(ApplyAll(env, s1, again), p) == View(ApplyAll(env, s, direct), p)
    {
      CompleteRun(env, s1, second, again, p);
      CompleteRun(env, s, second, direct, p);
      StoppedRunStages(env, s, first, plan, k, p);
      assert Sane(View(s, p));
      OverridableStage(env, first, second, View(s, p), p, View(s1, p));
    }
    ViewsDetermineStore(ApplyAll(env, s1, again), ApplyAll(env, s, direct));
  }

  // ---------------------------------------------------------------- the condition is necessary

  /** The plan with a single sweep and a single batch. */
  function OnePlan(env: Env, s: Store, run: Run): (plan: seq<Effect>)
    ensures IsPlan(env, s, run, plan)
  {
    SomePlan(env, s, run);
    PlanOf(env, s, run, [if run.sweep then Stale(s, run) else {}], [Parsed(env, s, run, run.entries)])
  }

  /** The same for manifest-free runs, whose stores need not be bared. */
  ghost predicate OverridesBare(env: Env, s: Store, first: Run, second: Run) {
    forall plan, k: nat, again, direct ::
      IsPlan(env, s, first, plan) && k <= |plan| && IsPlan(env, s, second, direct) &&
      IsPlan(env, ApplyAll(env, s, plan[..k]), second, again) ==>
        ApplyAll(env, ApplyAll(env, s, plan[..k]), again) == ApplyAll(env, s, direct)
  }

  /** A point of a run at which the second run does not come to the same. */
  ghost predicate Exposed(env: Env, s: Store, first: Run, second: Run, p: string, k: nat) {
    && k <= |OnePlan(env, s, first)|
    && Goal(env, second, View(ApplyAll(env, s, OnePlan(env, s, first)[..k]), p), p) != Goal(env, second, View(s, p), p)
  }

  lemma ExposedBreaks(env: Env, s: Store, first: Run, second: Run, p: string, k: nat)
    requires ProperRun(first) && !first.manifest && ProperRun(second) && !second.manifest && WellFormed(s)
    requires Exposed(env, s, first, second, p, k)
    ensures !OverridesBare(env, s, first, second)
  {
    var plan, direct := OnePlan(env, s, first), OnePlan(env, s, second);
    var s1 := ApplyAll(env, s, plan[..k]);
    var again := OnePlan(env, s1, second);
    StoppedRunIsWellFormed(env, s, first, plan, k);
    CompleteRun(env, s1, second, again, p);
    CompleteRun(env, s, second, direct, p);
    assert View(ApplyAll(env, s1, again), p) != View(ApplyAll(env, s, direct), p);
  }

  /** Stopped after the deletion, a touched path has no nodes and still its record. */
  lemma StopAfterDeletion(env: Env, s: Store, run: Run, p: string) returns (k: nat)
    requires ProperRun(run) && WellFormed(s) && Touches(env, run, View(s, p), p)
    ensures k <= |OnePlan(env, s, run)|
    ensures View(ApplyAll(env, s, OnePlan(env, s, run)[..k]), p) == Cleared(View(s, p))
  {
    var plan, v := OnePlan(env, s, run), View(s, p);
    var stale, parsed := if run.sweep then Stale(s, run) else {}, Parsed(env, s, run, run.entries);
    PlanProper(env, s, run, plan);
    StaleAt(s, run, p);
    if FileOf(run.entries, p).Some? {
      var f := FileOf(run.entries, p).value;
      ParsedAt(env, s, run, run.entries, f);
      ChangedMatches(env, s, run, f);
      CutView(env, s, run, [stale], parsed, f, plan);
      k := 3;
    } else {
      k := 1;
      assert [stale][..0] == [];
      assert SweepEffects([stale]) == [Clear(stale), Forget(stale)];
      assert plan[..1] == [Clear(stale)];
      EffectsArePathwise(env, s, plan[..1], p);
      ApplyViewsOne(env, v, Clear(stale), p);
      if p !in stale {
        assert v.vectors == map[];
      }
    }
  }

  function BeforeAck(env: Env, s: Store, run: Run): seq<Effect> {
    var stale, parsed := if run.sweep then Stale(s, run) else {}, Parsed(env, s, run, run.entries);
    [Clear(stale), Forget(stale), Clear(PathsOf(parsed)), Insert(parsed)] + (if env.semantic then [Embed(parsed)] else [])
  }

  lemma OnePlanShape(env: Env, s: Store, run: Run)
    requires !run.manifest && Parsed(env, s, run, run.entries) != []
    ensures OnePlan(env, s, run) == BeforeAck(env, s, run) + [Ack(Parsed(env, s, run, run.entries))]
  {
    var stale, parsed := if run.sweep then Stale(s, run) else {}, Parsed(env, s, run, run.entries);
    assert [stale][..0] == [];
    assert SweepEffects([stale]) == [Clear(stale), Forget(stale)];
    assert [parsed][1..] == [];
    assert AckEffects(env, run, [parsed]) == BatchEffects(env, run, parsed);
  }

  predicate KeepsRecord(e: Effect, p: string) {
    !e.Ack? && (e.Forget? ==> p !in e.paths)
  }

  lemma {:induction false} RecordKept(env: Env, v: FileView, effects: seq<Effect>, p: string)
    requires forall i :: 0 <= i < |effects| ==> KeepsRecord(effects[i], p)
    ensures ApplyViews(env, v, effects, p).record == v.record
    decreases |effects|
  {
    if effects != [] {
      RecordKept(env, v, effects[..|effects| - 1], p);
      assert KeepsRecord(effects[|effects| - 1], p);
    }
  }

  lemma BeforeAckKeepsRecord(env: Env, s: Store, run: Run, p: string)
    requires FileOf(run.entries, p).Some?
    ensures ApplyViews(env, View(s, p), BeforeAck(env, s, run), p).record == View(s, p).record
  {
    StaleAt(s, run, p);
    RecordKept(env, View(s, p), BeforeAck(env, s, run), p);
  }

  lemma AckSetsRecord(env: Env, v: FileView, files: seq<FileEntry>, p: string)
    ensures ApplyView(env, v, Ack(files), p) == v.(record := ApplyView(env, v, Ack(files), p).record)
  {
  }

  /** Stopped before the acknowledgement, an indexed path is complete but for its record. */
  lemma StopBeforeAck(env: Env, s: Store, run: Run, p: string) returns (k: nat)
    requires ProperRun(run) && !run.manifest && WellFormed(s)
    requires FileOf(run.entries, p).Some? && Touches(env, run, View(s, p), p)
    ensures k <= |OnePlan(env, s, run)|
    ensures View(ApplyAll(env, s, OnePlan(env, s, run)[..k]), p) == Goal(env, run, View(s, p), p).(record := View(s, p).record)
  {
    var plan, init, parsed := OnePlan(env, s, run), BeforeAck(env, s, run), Parsed(env, s, run, run.entries);
    ParsedAt(env, s, run, run.entries, FileOf(run.entries, p).value);
    ChangedMatches(env, s, run, FileOf(run.entries, p).value);
    OnePlanShape(env, s, run);
    k := |init|;
    assert plan[..k] == init;
    PlanProper(env, s, run, plan);
    assert forall i :: 0 <= i < |init| ==> init[i] == plan[i];
    EffectsArePathwise(env, s, init, p);
    BeforeAckKeepsRecord(env, s, run, p);
    CompleteRun(env, s, run, plan, p);
    EffectsArePathwise(env, s, plan, p);
    ApplyViewsSnoc(env, View(s, p), init, Ack(parsed), p);
    AckSetsRecord(env, ApplyViews(env, View(s, p), init, p), parsed, p);
  }

  lemma StopAtEnd(env: Env, s: Store, run: Run, p: string) returns (k: nat)
    requires ProperRun(run) && !run.manifest && WellFormed(s)
    ensures k <= |OnePlan(env, s, run)|
    ensures View(ApplyAll(env, s, OnePlan(env, s, run)[..k]), p) == Goal(env, run, View(s, p), p)
  {
    k := |OnePlan(env, s, run)|;
    assert OnePlan(env, s, run)[..k] == OnePlan(env, s, run);
    CompleteRun(env, s, run, OnePlan(env, s, run), p);
  }

  /** The second run leaves the path as it finds it. */
  predicate Keeps(env: Env, run: Run, p: string) {
    match FileOf(run.entries, p)
    case Some(f) => env.parse(f).None?
    case None => !run.sweep
  }

  lemma KeptIsExposed(env: Env, second: Run, v: FileView, left: FileView, p: string)
    requires Keeps(env, second, p) && !(v.nodes == map[] && left == v)
    ensures if v.nodes == map[] then Goal(env, second, left, p) != Goal(env, second, v, p)
            else Goal(env, second, Cleared(v), p) != Goal(env, second, v, p)
  {
  }

  /** A path the second run takes to be up to date as long as the recorded hash is all it looks at. */
  predicate Trusted(env: Env, second: Run, v: FileView, f: FileEntry) {
    FileOf(second.entries, f.path) == Some(f) && env.parse(f).Some? && !second.force && v.record == Some(f.hash)
  }

  lemma TrustedIsExposed(env: Env, second: Run, v: FileView, f: FileEntry)
    requires Trusted(env, second, v, f) && v.nodes != map[]
    requires Planned(env, f) != map[] || !LacksVectors(env, v)
    ensures Goal(env, second, Cleared(v), f.path) != Goal(env, second, v, f.path)
  {
  }

  lemma EmptyIsExposed(env: Env, first: Run, second: Run, v: FileView, f: FileEntry)
    requires Trusted(env, second, v, f) && v.nodes == map[] && Planned(env, f) != map[]
    requires Touches(env, first, v, f.path)
    ensures Goal(env, second, Goal(env, first, v, f.path), f.path) != Goal(env, second, v, f.path)
  {
    var left := Goal(env, first, v, f.path);
    assert Goal(env, second, v, f.path).nodes == map[];
    if left.record == Some(f.hash) {
      assert FileOf(first.entries, f.path) == Some(f);
    }
  }

  lemma CompleteIsExposed(env: Env, first: Run, second: Run, v: FileView, f: FileEntry)
    requires Trusted(env, second, v, f) && Planned(env, f) == map[] && (v.nodes == map[] || LacksVectors(env, v))
    requires Touches(env, first, v, f.path) && Goal(env, first, v, f.path).nodes != map[]
    ensures Goal(env, second, Goal(env, first, v, f.path).(record := v.record), f.path) != Goal(env, second, v, f.path)
  {
    assert Goal(env, second, v, f.path).nodes == map[];
    var g := FileOf(first.entries, f.path).value;
    assert forall id :: id in Planned(env, g) && env.semantic ==> id in Vectors(env, g);
  }

  /** One of the three stops exposes a path that the second run does not make up for. */
  lemma SomeStopExposes(env: Env, s: Store, first: Run, second: Run, p: string) returns (k: nat)
    requires ProperRun(first) && !first.manifest && ProperRun(second) && !second.manifest && WellFormed(s)
    requires !Overridable(env, first, second, View(s, p), p)
    ensures Exposed(env, s, first, second, p, k)
  {
    var v := View(s, p);
    if Keeps(env, second, p) {
      KeptIsExposed(env, second, v, Goal(env, first, v, p), p);
      if v.nodes == map[] {
        k := StopAtEnd(env, s, first, p);
      } else {
        k := StopAfterDeletion(env, s, first, p);
      }
    } else {
      k := TrustedStopExposes(env, s, first, second, FileOf(second.entries, p).value);
    }
  }

  lemma TrustedStopExposes(env: Env, s: Store, first: Run, second: Run, f: FileEntry) returns (k: nat)
    requires ProperRun(first) && !first.manifest && ProperRun(second) && !second.manifest && WellFormed(s)
    requires Trusted(env, second, View(s, f.path), f) && !Overridable(env, first, second, View(s, f.path), f.path)
    ensures Exposed(env, s, first, second, f.path, k)
  {
    var v := View(s, f.path);
    if Planned(env, f) == map[] && (v.nodes == map[] || LacksVectors(env, v)) {
      CompleteIsExposed(env, first, second, v, f);
      k := StopBeforeAck(env, s, first, f.path);
    } else if v.nodes == map[] {
      EmptyIsExposed(env, first, second, v, f);
      k := StopAtEnd(env, s, first, f.path);
    } else {
      TrustedIsExposed(env, second, v, f);
      k := StopAfterDeletion(env, s, first, f.path);
    }
  }

  lemma OverridesBareExactly(env: Env, s: Store, first: Run, second: Run)
    requires ProperRun(first) && !first.manifest && ProperRun(second) && !second.manifest && WellFormed(s)
    ensures OverridesBare(env, s, first, second) <==> forall p :: Overridable(env, first, second, View(s, p), p)
  {
    if forall p :: Overridable(env, first, second, View(s, p), p) {
      forall plan, k: nat, again, direct |
        IsPlan(env, s, first, plan) && k <= |plan| && IsPlan(env, s, second, direct) &&
        IsPlan(env, ApplyAll(env, s, plan[..k]), second, again)
        ensures ApplyAll(env, ApplyAll(env, s, plan[..k]), again) == ApplyAll(env, s, direct)
      {
        OverridablePathsConverge(env, s, first, second, plan, k, again, direct);
      }
    } else {
      var p :| !Overridable(env, first, second, View(s, p), p);
      var k := SomeStopExposes(env, s, first, second, p);
      ExposedBreaks(env, s, first, second, p, k);
    }
  }

  // ---------------------------------------------------------------- runs of force jobs

  /** A stop and a second run, less their marks, are a stop and a second run without manifests. */
  lemma StripScenario(env: Env, s: Store, first: Run, second: Run, plan: seq<Effect>, k: nat, again: seq<Effect>)
    requires IsPlan(env, s, first, plan) && k <= |plan| && IsPlan(env, ApplyAll(env, s, plan[..k]), second, again)
    ensures var bare, k' := Strip(plan), |Strip(plan[..k])|;
            && IsPlan(env, Bared(s), Bare(first), bare) && k' <= |bare|
            && IsPlan(env, ApplyAll(env, Bared(s), bare[..k']), Bare(second), Strip(again))
            && Bared(ApplyAll(env, ApplyAll(env, s, plan[..k]), again))
               == ApplyAll(env, ApplyAll(env, Bared(s), bare[..k']), Strip(again))
  {
    StrippedIsPlan(env, s, first, plan);
    StripPrefix(plan, k);
    StripKeepsEffects(env, s, plan[..k]);
    StrippedIsPlan(env, ApplyAll(env, s, plan[..k]), second, again);
    StripKeepsEffects(env, ApplyAll(env, s, plan[..k]), again);
  }

  lemma BareSuffices(env: Env, s: Store, first: Run, second: Run)
    requires OverridesBare(env, Bared(s), Bare(first), Bare(second))
    ensures Overrides(env, s, first, second)
  {
    forall plan, k: nat, again, direct |
      IsPlan(env, s, first, plan) && k <= |plan| && IsPlan(env, s, second, direct) &&
      IsPlan(env, ApplyAll(env, s, plan[..k]), second, again)
      ensures Bared(ApplyAll(env, ApplyAll(env, s, plan[..k]), again)) == Bared(ApplyAll(env, s, direct))
    {
      StripScenario(env, s, first, second, plan, k, again);
      StrippedIsPlan(env, s, second, direct);
      StripKeepsEffects(env, s, direct);
    }
  }

  lemma BareIsNeeded(env: Env, s: Store, first: Run, second: Run)
    requires Overrides(env, s, first, second)
    ensures OverridesBare(env, Bared(s), Bare(first), Bare(second))
  {
    forall plan, k: nat, again, direct |
      IsPlan(env, Bared(s), Bare(first), plan) && k <= |plan| && IsPlan(env, Bared(s), Bare(second), direct) &&
      IsPlan(env, ApplyAll(env, Bared(s), plan[..k]), Bare(second), again)
      ensures ApplyAll(env, ApplyAll(env, Bared(s), plan[..k]), again) == ApplyAll(env, Bared(s), direct)
    {
      var marking := PlanIsStripped(env, s, first, plan);
      var n := StopBehind(marking, k);
      StripKeepsEffects(env, s, marking[..n]);
      var s1 := ApplyAll(env, s, marking[..n]);
      var markingAgain := PlanIsStripped(env, s1, second, again);
      var markingDirect := PlanIsStripped(env, s, second, direct);
      StripKeepsEffects(env, s1, markingAgain);
      StripKeepsEffects(env, s, markingDirect);
      assert Bared(ApplyAll(env, s1, markingAgain)) == Bared(ApplyAll(env, s, markingDirect));
    }
  }

  function WithoutMark(v: FileView): FileView {
    v.(marked := false)
  }

  lemma GoalIgnoresMarks(env: Env, run: Run, v: FileView, p: string)
    ensures WithoutMark(Goal(env, Bare(run), WithoutMark(v), p)) == WithoutMark(Goal(env, run, v, p))
    ensures Touches(env, Bare(run), WithoutMark(v), p) <==> Touches(env, run, v, p)
  {
  }

  lemma MakesUpIgnoresMarks(env: Env, first: Run, second: Run, v: FileView, p: string)
    ensures MakesUp(env, Bare(first), Bare(second), WithoutMark(v), p) <==> MakesUp(env, first, second, v, p)
  {
    GoalIgnoresMarks(env, first, v, p);
    assert WithoutMark(Goal(env, first, v, p)).nodes == Goal(env, first, v, p).nodes;
    assert WithoutMark(Goal(env, Bare(first), WithoutMark(v), p)).nodes == Goal(env, Bare(first), WithoutMark(v), p).nodes;
  }

  lemma LeavingIgnoresMarks(env: Env, run: Run, v: FileView, p: string)
    ensures LeavesNothing(env, Bare(run), WithoutMark(v), p) <==> LeavesNothing(env, run, v, p)
  {
    GoalIgnoresMarks(env, run, v, p);
    SameApartFromMarks(Goal(env, run, v, p), v);
    SameApartFromMarks(Goal(env, Bare(run), WithoutMark(v), p), WithoutMark(v));
  }

  lemma SameApartFromMarks(a: FileView, b: FileView)
    ensures a.(marked := b.marked) == b <==> WithoutMark(a) == WithoutMark(b)
  {
  }

  /** The condition does not look at marks. */
  lemma ConditionIgnoresMarks(env: Env, first: Run, second: Run, v: FileView, p: string)
    ensures Overridable(env, Bare(first), Bare(second), WithoutMark(v), p) <==> Overridable(env, first, second, v, p)
  {
    GoalIgnoresMarks(env, first, v, p);
    LeavingIgnoresMarks(env, first, v, p);
    MakesUpIgnoresMarks(env, first, second, v, p);
  }

  /**
  The second run overrides whatever the first one left exactly when, at every path the first one touches, it makes
  up for it or nothing is at stake.
  */
  lemma OverridesExactly(env: Env, s: Store, first: Run, second: Run)
    requires ProperRun(first) && ProperRun(second) && WellFormed(s)
    ensures Overrides(env, s, first, second) <==> forall p :: Overridable(env, first, second, View(s, p), p)
  {
    OverridesBareExactly(env, Bared(s), Bare(first), Bare(second));
    forall p
      ensures Overridable(env, Bare(first), Bare(second), View(Bared(s), p), p) <==> Overridable(env, first, second, View(s, p), p)
    {
      assert View(Bared(s), p) == WithoutMark(View(s, p));
      ConditionIgnoresMarks(env, first, second, View(s, p), p);
    }
    if Overrides(env, s, first, second) {
      BareIsNeeded(env, s, first, second);
    }
    if OverridesBare(env, Bared(s), Bare(first), Bare(second)) {
      BareSuffices(env, s, first, second);
    }
  }

  // ---------------------------------------------------------------- instances

  /** On unchanged sources the condition is that of crash replay (Convergence.ConvergesExactly). */
  lemma SameRunCondition(env: Env, run: Run, v: FileView, p: string)
    requires ProperRun(run)
    ensures Overridable(env, run, run, v, p) <==> Resumable(env, run, v, p)
  {
  }

  /** An edit and its undoing: what the stopped run deleted is not put back. */
  lemma UndoneEditIsNotOverridden(env: Env, s: Store, edited: FileEntry, original: FileEntry)
    requires WellFormed(s) && edited.path == original.path && edited.hash != original.hash
    requires env.parse(edited).Some? && env.parse(original).Some? && Planned(env, original) != map[]
    requires View(s, original.path).record == Some(original.hash) && View(s, original.path).nodes != map[]
    ensures !Overrides(env, s, Run([edited], false, false, false), Run([original], false, false, false))
  {
    var first, second, p := Run([edited], false, false, false), Run([original], false, false, false), original.path;
    FileOfUnique([edited], edited);
    FileOfUnique([original], original);
    assert !Overridable(env, first, second, View(s, p), p);
    OverridesExactly(env, s, first, second);
  }

  lemma AnyStoppedRunIsWellFormed(env: Env, s: Store, run: Run, plan: seq<Effect>, k: nat)
    requires DistinctPaths(run.entries) && WellFormed(s) && IsPlan(env, s, run, plan) && k <= |plan|
    ensures WellFormed(ApplyAll(env, s, plan[..k]))
  {
    StrippedIsPlan(env, s, run, plan);
    StripPrefix(plan, k);
    StripKeepsEffects(env, s, plan[..k]);
    StoppedRunIsWellFormed(env, Bared(s), Bare(run), Strip(plan), |Strip(plan[..k])|);
  }

  /**
  A force job that stops between deletion and insertion and is never resumed, because it is cancelled or out of
  attempts: every complete ordinary run after it takes the unchanged file to be up to date, though it has no nodes.
  */
  lemma AbandonedForceJobLosesNodes(env: Env, s: Store, job: Run, next: Run, f: FileEntry)
    returns (plan: seq<Effect>, k: nat)
    requires ProperRun(job) && job.manifest && ProperRun(next) && !next.force && WellFormed(s)
    requires FileOf(job.entries, f.path) == Some(f) == FileOf(next.entries, f.path) && env.parse(f).Some?
    requires View(s, f.path).record == Some(f.hash)
    ensures IsPlan(env, s, job, plan) && k <= |plan|
    ensures var stopped := ApplyAll(env, s, plan[..k]);
      forall again :: IsPlan(env, stopped, next, again) ==>
        View(ApplyAll(env, stopped, again), f.path).nodes == map[]
        && View(ApplyAll(env, stopped, again), f.path).record == Some(f.hash)
  {
    plan := OnePlan(env, s, job);
    k := StopAfterDeletion(env, s, job, f.path);
    var stopped := ApplyAll(env, s, plan[..k]);
    AnyStoppedRunIsWellFormed(env, s, job, plan, k);
    forall again | IsPlan(env, stopped, next, again)
      ensures View(ApplyAll(env, stopped, again), f.path) == Cleared(View(s, f.path))
    {
      CompleteRun(env, stopped, next, again, f.path);
    }
  }

  /** So an ordinary run overrides such a job only where nothing was stored or planned. */
  lemma AbandonedForceJobIsNotOverridden(env: Env, s: Store, job: Run, next: Run, f: FileEntry)
    requires ProperRun(job) && job.manifest && ProperRun(next) && !next.force && WellFormed(s)
    requires FileOf(job.entries, f.path) == Some(f) == FileOf(next.entries, f.path) && env.parse(f).Some?
    requires View(s, f.path).record == Some(f.hash) && Planned(env, f) != map[]
    ensures !Overrides(env, s, job, next)
  {
    assert !Overridable(env, job, next, View(s, f.path), f.path);
    OverridesExactly(env, s, job, next);
  }
}
