/**
Runs of a force job and their manifest-free twins: marking batches in a job's manifest touches nothing else
(src/scs/indexing/pipeline.py:447-460).
*/
module ManifestRuns {
  import opened Pipeline
  import opened Convergence

  /** The run without its manifest. */
  function Bare(run: Run): Run {
    run.(manifest := false)
  }

  /** The store without marks. */
  function Bared(s: Store): Store {
    s.(marked := {})
  }

  /** The effects other than marks. */
  function Strip(effects: seq<Effect>): (r: seq<Effect>)
    ensures |r| <= |effects|
  {
    if effects == [] then []
    else Strip(effects[..|effects| - 1]) + (if effects[|effects| - 1].Mark? then [] else [effects[|effects| - 1]])
  }

  lemma {:induction false} StripConcat(a: seq<Effect>, b: seq<Effect>)
    ensures Strip(a + b) == Strip(a) + Strip(b)
    decreases |b|
  {
    if b == [] {
      assert a + b == a;
    } else {
      assert (a + b)[..|a + b| - 1] == a + b[..|b| - 1];
      StripConcat(a, b[..|b| - 1]);
    }
  }

  lemma {:induction false} StripNothing(effects: seq<Effect>)
    requires forall i :: 0 <= i < |effects| ==> !effects[i].Mark?
    ensures Strip(effects) == effects
    decreases |effects|
  {
    if effects != [] {
      StripNothing(effects[..|effects| - 1]);
    }
  }

  lemma ApplySnoc(env: Env, s: Store, effects: seq<Effect>, e: Effect)
    ensures ApplyAll(env, s, effects + [e]) == Apply(env, ApplyAll(env, s, effects), e)
  {
    assert (effects + [e])[..|effects|] == effects;
  }

  lemma OneEffect(env: Env, s: Store, e: Effect)
    ensures Bared(Apply(env, s, e)) == if e.Mark? then Bared(s) else Apply(env, Bared(s), e)
  {
  }

  /** What a run does besides marking is what the effects do without the marks. */
  lemma {:induction false} StripKeepsEffects(env: Env, s: Store, effects: seq<Effect>)
    ensures Bared(ApplyAll(env, s, effects)) == ApplyAll(env, Bared(s), Strip(effects))
    decreases |effects|
  {
    if effects != [] {
      var init, last := effects[..|effects| - 1], effects[|effects| - 1];
      StripKeepsEffects(env, s, init);
      OneEffect(env, ApplyAll(env, s, init), last);
      ApplySnoc(env, Bared(s), Strip(init), last);
      assert Strip(init) + [] == Strip(init);
    }
  }

  // ---------------------------------------------------------------- plans

  lemma {:induction false} ParsedIgnoresMarks(env: Env, s: Store, run: Run, entries: seq<FileEntry>)
    ensures Parsed(env, Bared(s), Bare(run), entries) == Parsed(env, s, run, entries)
    decreases |entries|
  {
    if entries != [] {
      ParsedIgnoresMarks(env, s, run, entries[..|entries| - 1]);
      ChangedIgnoresMarks(env, s, run, entries[|entries| - 1]);
    }
  }

  lemma ChangedIgnoresMarks(env: Env, s: Store, run: Run, f: FileEntry)
    ensures Changed(env, Bared(s), Bare(run), f) <==> Changed(env, s, run, f)
  {
  }

  lemma {:induction false} SweepHasNoMarks(sweeps: seq<set<string>>)
    ensures forall i :: 0 <= i < |SweepEffects(sweeps)| ==> !SweepEffects(sweeps)[i].Mark?
    decreases |sweeps|
  {
    if sweeps != [] {
      SweepHasNoMarks(sweeps[..|sweeps| - 1]);
    }
  }

  lemma StripBatch(env: Env, run: Run, batch: seq<FileEntry>)
    ensures Strip(BatchEffects(env, run, batch)) == BatchEffects(env, Bare(run), batch)
  {
    var unmarked := BatchEffects(env, Bare(run), batch);
    StripNothing(unmarked);
    if run.manifest {
      assert BatchEffects(env, run, batch) == unmarked + [Mark(batch)];
      StripConcat(unmarked, [Mark(batch)]);
      assert Strip([Mark(batch)]) == [];
    } else {
      assert Bare(run) == run;
    }
  }

  lemma {:induction false} StripAcks(env: Env, run: Run, batches: seq<seq<FileEntry>>)
    ensures Strip(AckEffects(env, run, batches)) == AckEffects(env, Bare(run), batches)
    decreases |batches|
  {
    if batches != [] {
      StripBatch(env, run, batches[0]);
      StripAcks(env, run, batches[1..]);
      StripConcat(BatchEffects(env, run, batches[0]), AckEffects(env, run, batches[1..]));
    }
  }

  lemma StripPlan(env: Env, s: Store, run: Run, sweeps: seq<set<string>>, batches: seq<seq<FileEntry>>)
    ensures Strip(PlanOf(env, s, run, sweeps, batches)) == PlanOf(env, Bared(s), Bare(run), sweeps, batches)
  {
    var parsed := Parsed(env, s, run, run.entries);
    var head := SweepEffects(sweeps) + (if parsed == [] then [] else [Clear(PathsOf(parsed)), Insert(parsed)]);
    ParsedIgnoresMarks(env, s, run, run.entries);
    SweepHasNoMarks(sweeps);
    StripNothing(head);
    StripAcks(env, run, batches);
    StripConcat(head, AckEffects(env, run, batches));
  }

  lemma BatchedIgnoresMarks(env: Env, s: Store, run: Run, sweeps: seq<set<string>>, batches: seq<seq<FileEntry>>)
    ensures Batched(env, Bared(s), Bare(run), sweeps, batches) <==> Batched(env, s, run, sweeps, batches)
  {
    ParsedIgnoresMarks(env, s, run, run.entries);
    assert Stale(Bared(s), Bare(run)) == Stale(s, run);
  }

  /** A plan of a run, less its marks, is a plan of the manifest-free run. */
  lemma StrippedIsPlan(env: Env, s: Store, run: Run, plan: seq<Effect>)
    requires IsPlan(env, s, run, plan)
    ensures IsPlan(env, Bared(s), Bare(run), Strip(plan))
  {
    var sweeps, batches :| Batched(env, s, run, sweeps, batches) && plan == PlanOf(env, s, run, sweeps, batches);
    BatchedIgnoresMarks(env, s, run, sweeps, batches);
    StripPlan(env, s, run, sweeps, batches);
    assert Batched(env, Bared(s), Bare(run), sweeps, batches);
  }

  /** And every plan of the manifest-free run is one. */
  lemma PlanIsStripped(env: Env, s: Store, run: Run, plan: seq<Effect>) returns (marking: seq<Effect>)
    requires IsPlan(env, Bared(s), Bare(run), plan)
    ensures IsPlan(env, s, run, marking) && Strip(marking) == plan
  {
    var sweeps, batches :|
      Batched(env, Bared(s), Bare(run), sweeps, batches) && plan == PlanOf(env, Bared(s), Bare(run), sweeps, batches);
    BatchedIgnoresMarks(env, s, run, sweeps, batches);
    StripPlan(env, s, run, sweeps, batches);
    marking := PlanOf(env, s, run, sweeps, batches);
    assert Batched(env, s, run, sweeps, batches);
  }

  // ---------------------------------------------------------------- stops

  lemma StripPrefix(effects: seq<Effect>, k: nat)
    requires k <= |effects|
    ensures |Strip(effects[..k])| <= |Strip(effects)| && Strip(effects)[..|Strip(effects[..k])|] == Strip(effects[..k])
  {
    assert effects == effects[..k] + effects[k..];
    StripConcat(effects[..k], effects[k..]);
  }

  /** Every stop of the stripped effects is a stop of the effects. */
  lemma {:induction false} StopBehind(effects: seq<Effect>, n: nat) returns (k: nat)
    requires n <= |Strip(effects)|
    ensures k <= |effects| && Strip(effects[..k]) == Strip(effects)[..n]
    decreases |effects|
  {
    if n == |Strip(effects)| {
      k := |effects|;
      assert effects[..k] == effects;
    } else {
      var init := effects[..|effects| - 1];
      k := StopBehind(init, n);
      assert init[..k] == effects[..k];
    }
  }
}
