/** Crash-replay convergence of an indexing run, its exact condition, and agreement with indexing from scratch. */
module CrashReplay {
  import opened Outcome
  import opened Batching
  import opened Pipeline
  import opened FileViews

  /** What the embedding index should hold is a subset of the nodes: deletion cascades. */
  ghost predicate WellFormed(s: Store) {
    forall id :: id in s.vectors ==> id in s.nodes
  }

  ghost predicate ProperRun(run: Run) {
    DistinctPaths(run.entries) && (run.manifest ==> run.force)
  }

  predicate ChangedView(env: Env, run: Run, v: FileView, f: FileEntry) {
    run.force || v.record != Some(f.hash) || (env.semantic && exists id :: id in v.nodes && id !in v.vectors)
  }

  predicate Indexes(env: Env, run: Run, v: FileView, f: FileEntry) {
    ChangedView(env, run, v, f) && env.parse(f).Some?
  }

  /** A freshly indexed file. */
  function Final(env: Env, run: Run, v: FileView, f: FileEntry): FileView {
    FileView(Planned(env, f), Vectors(env, f), Some(f.hash), v.marked || run.manifest)
  }

  /** What a complete run makes of one path. */
  function Goal(env: Env, run: Run, v: FileView, p: string): FileView {
    match FileOf(run.entries, p)
    case Some(f) => if Indexes(env, run, v, f) then Final(env, run, v, f) else v
    case None => if run.sweep then FileView(map[], map[], None, v.marked) else v
  }

  /**
  A file may be re-indexed safely when its recorded hash differs, when the run is forced, or when it
  has nothing to insert: then no crash can make it look up to date while its nodes are missing.
  */
  predicate Resumable(env: Env, run: Run, v: FileView, p: string) {
    match FileOf(run.entries, p)
    case Some(f) =>
      Indexes(env, run, v, f) ==> run.force || v.record != Some(f.hash) || Planned(env, f) == map[]
    case None => true
  }

  /** A path marked in the manifest is completely indexed at its frozen hash. */
  ghost predicate MarkTruthful(env: Env, run: Run, v: FileView, p: string) {
    run.manifest && v.marked && FileOf(run.entries, p).Some? ==> v == Final(env, run, v, FileOf(run.entries, p).value)
  }

  ghost predicate Fine(env: Env, run: Run, v: FileView, p: string) {
    Sane(v) && Resumable(env, run, v, p) && MarkTruthful(env, run, v, p)
  }

  /** A manifest run works on the files its manifest has not marked yet. */
  ghost predicate Unmarked(run: Run, v: FileView, p: string) {
    run.manifest && FileOf(run.entries, p).Some? ==> !v.marked
  }

  /** Every prefix of the effects keeps the path fine and its goal the same. */
  ghost predicate Steady(env: Env, run: Run, v: FileView, effects: seq<Effect>, p: string) {
    forall k: nat :: k <= |effects| ==>
      var v' := ApplyViews(env, v, effects[..k], p);
      Fine(env, run, v', p) && Goal(env, run, v', p) == Goal(env, run, v, p)
  }

  lemma SteadyConcat(env: Env, run: Run, v: FileView, a: seq<Effect>, b: seq<Effect>, p: string)
    requires Steady(env, run, v, a, p) && Steady(env, run, ApplyViews(env, v, a, p), b, p)
    ensures Steady(env, run, v, a + b, p)
  {
    forall k: nat | k <= |a + b|
      ensures var v' := ApplyViews(env, v, (a + b)[..k], p);
              Fine(env, run, v', p) && Goal(env, run, v', p) == Goal(env, run, v, p)
    {
      if k <= |a| {
        assert (a + b)[..k] == a[..k];
      } else {
        assert (a + b)[..k] == a + b[..k - |a|];
        ApplyViewsConcat(env, v, a, b[..k - |a|], p);
        assert a[..|a|] == a;
      }
    }
  }

  lemma SteadyNone(env: Env, run: Run, v: FileView, p: string)
    requires Fine(env, run, v, p)
    ensures Steady(env, run, v, [], p)
  {
  }

  lemma SteadyOne(env: Env, run: Run, v: FileView, e: Effect, p: string)
    requires Fine(env, run, v, p)
    requires var v' := ApplyView(env, v, e, p); Fine(env, run, v', p) && Goal(env, run, v', p) == Goal(env, run, v, p)
    ensures Steady(env, run, v, [e], p)
    ensures ApplyViews(env, v, [e], p) == ApplyView(env, v, e, p)
  {
  }

  // ---------------------------------------------------------------- the sweep

  lemma {:induction false} SweepSparesDiscovered(env: Env, run: Run, v: FileView, sweeps: seq<set<string>>, p: string)
    requires Fine(env, run, v, p) && forall i :: 0 <= i < |sweeps| ==> p !in sweeps[i]
    ensures Steady(env, run, v, SweepEffects(sweeps), p)
    ensures ApplyViews(env, v, SweepEffects(sweeps), p) == v
    decreases |sweeps|
  {
    if sweeps == [] {
      SteadyNone(env, run, v, p);
    } else {
      var init, last := sweeps[..|sweeps| - 1], sweeps[|sweeps| - 1];
      SweepSparesDiscovered(env, run, v, init, p);
      SteadyOne(env, run, v, Clear(last), p);
      SteadyOne(env, run, v, Forget(last), p);
      SteadyConcat(env, run, v, [Clear(last)], [Forget(last)], p);
      ApplyViewsConcat(env, v, [Clear(last)], [Forget(last)], p);
      assert [Clear(last)] + [Forget(last)] == [Clear(last), Forget(last)];
      SteadyConcat(env, run, v, SweepEffects(init), [Clear(last), Forget(last)], p);
      ApplyViewsConcat(env, v, SweepEffects(init), [Clear(last), Forget(last)], p);
    }
  }

  /** Sweeping an undiscovered path removes its nodes and vectors first and its record last. */
  ghost predicate SweepShape(before: FileView, now: FileView) {
    || now == before
    || now == before.(nodes := map[], vectors := map[])
    || now == FileView(map[], map[], None, before.marked)
  }

  lemma {:induction false} SweepForgetsUndiscovered(env: Env, run: Run, v: FileView, sweeps: seq<set<string>>, p: string)
    requires Fine(env, run, v, p) && FileOf(run.entries, p).None? && run.sweep
    ensures Steady(env, run, v, SweepEffects(sweeps), p)
    ensures var v' := ApplyViews(env, v, SweepEffects(sweeps), p);
            if exists i :: 0 <= i < |sweeps| && p in sweeps[i] then v' == FileView(map[], map[], None, v.marked) else v' == v
    decreases |sweeps|
  {
    if sweeps == [] {
      SteadyNone(env, run, v, p);
    } else {
      var init, last := sweeps[..|sweeps| - 1], sweeps[|sweeps| - 1];
      SweepForgetsUndiscovered(env, run, v, init, p);
      var v1 := ApplyViews(env, v, SweepEffects(init), p);
      var v2 := ApplyView(env, v1, Clear(last), p);
      SteadyOne(env, run, v1, Clear(last), p);
      SteadyOne(env, run, v2, Forget(last), p);
      SteadyConcat(env, run, v1, [Clear(last)], [Forget(last)], p);
      ApplyViewsConcat(env, v1, [Clear(last)], [Forget(last)], p);
      assert [Clear(last)] + [Forget(last)] == [Clear(last), Forget(last)];
      SteadyConcat(env, run, v, SweepEffects(init), [Clear(last), Forget(last)], p);
      ApplyViewsConcat(env, v, SweepEffects(init), [Clear(last), Forget(last)], p);
      if p in last {
        assert p in sweeps[|sweeps| - 1];
      }
      assert forall i :: 0 <= i < |init| ==> init[i] == sweeps[i];
    }
  }

  // ---------------------------------------------------------------- acknowledgement batches

  lemma BatchSparesOthers(env: Env, run: Run, v: FileView, batch: seq<FileEntry>, p: string)
    requires Fine(env, run, v, p) && FileOf(batch, p).None?
    ensures Steady(env, run, v, BatchEffects(env, run, batch), p)
    ensures ApplyViews(env, v, BatchEffects(env, run, batch), p) == v
  {
    var embed := if env.semantic then [Embed(batch)] else [];
    var mark := if run.manifest then [Mark(batch)] else [];
    SteadyNone(env, run, v, p);
    SteadyOne(env, run, v, Embed(batch), p);
    SteadyOne(env, run, v, Ack(batch), p);
    SteadyOne(env, run, v, Mark(batch), p);
    SteadyConcat(env, run, v, embed, [Ack(batch)], p);
    ApplyViewsConcat(env, v, embed, [Ack(batch)], p);
    SteadyConcat(env, run, v, embed + [Ack(batch)], mark, p);
    ApplyViewsConcat(env, v, embed + [Ack(batch)], mark, p);
  }

  /** The state between insertion and acknowledgement: nodes in place, vectors not yet, record still the old one. */
  ghost predicate Inserted(env: Env, run: Run, v: FileView, f: FileEntry) {
    && FileOf(run.entries, f.path) == Some(f) && env.parse(f).Some?
    && v.nodes == Planned(env, f) && v.vectors == map[]
    && (run.force || v.record != Some(f.hash) || Planned(env, f) == map[])
    && Unmarked(run, v, f.path)
  }

  lemma BatchFinishesFile(env: Env, run: Run, v: FileView, batch: seq<FileEntry>, f: FileEntry)
    requires ProperRun(run) && Inserted(env, run, v, f) && FileOf(batch, f.path) == Some(f)
    ensures Steady(env, run, v, BatchEffects(env, run, batch), f.path)
    ensures ApplyViews(env, v, BatchEffects(env, run, batch), f.path) == Final(env, run, v, f)
    ensures Goal(env, run, v, f.path) == Final(env, run, v, f)
  {
    var p := f.path;
    var embed := if env.semantic then [Embed(batch)] else [];
    var mark := if run.manifest then [Mark(batch)] else [];
    var v1 := v.(vectors := Vectors(env, f));
    var v2 := v1.(record := Some(f.hash));
    assert v.vectors + Vectors(env, f) == Vectors(env, f);
    SteadyNone(env, run, v, p);
    if env.semantic {
      SteadyOne(env, run, v, Embed(batch), p);
    }
    assert ApplyViews(env, v, embed, p) == v1;
    SteadyOne(env, run, v1, Ack(batch), p);
    SteadyConcat(env, run, v, embed, [Ack(batch)], p);
    ApplyViewsConcat(env, v, embed, [Ack(batch)], p);
    SteadyNone(env, run, v2, p);
    if run.manifest {
      SteadyOne(env, run, v2, Mark(batch), p);
    }
    SteadyConcat(env, run, v, embed + [Ack(batch)], mark, p);
    ApplyViewsConcat(env, v, embed + [Ack(batch)], mark, p);
  }

  lemma {:induction false} AcksSpareOthers(env: Env, run: Run, v: FileView, batches: seq<seq<FileEntry>>, p: string)
    requires Fine(env, run, v, p) && FileOf(Join(batches), p).None?
    ensures Steady(env, run, v, AckEffects(env, run, batches), p)
    ensures ApplyViews(env, v, AckEffects(env, run, batches), p) == v
    decreases |batches|
  {
    if batches == [] {
      SteadyNone(env, run, v, p);
    } else {
      FileOfConcat(batches[0], Join(batches[1..]), p);
      BatchSparesOthers(env, run, v, batches[0], p);
      AcksSpareOthers(env, run, v, batches[1..], p);
      SteadyConcat(env, run, v, BatchEffects(env, run, batches[0]), AckEffects(env, run, batches[1..]), p);
      ApplyViewsConcat(env, v, BatchEffects(env, run, batches[0]), AckEffects(env, run, batches[1..]), p);
    }
  }

  lemma {:induction false} AcksFinishFile(env: Env, run: Run, v: FileView, batches: seq<seq<FileEntry>>, f: FileEntry)
    requires ProperRun(run) && Inserted(env, run, v, f)
    requires DistinctPaths(Join(batches)) && f in Join(batches)
    ensures Steady(env, run, v, AckEffects(env, run, batches), f.path)
    ensures ApplyViews(env, v, AckEffects(env, run, batches), f.path) == Final(env, run, v, f)
    decreases |batches|
  {
    var batch, rest := batches[0], batches[1..];
    var first, later := BatchEffects(env, run, batch), AckEffects(env, run, rest);
    DistinctParts(batch, Join(rest));
    FileOfUnique(Join(batches), f);
    FileOfConcat(batch, Join(rest), f.path);
    if f in batch {
      FileOfUnique(batch, f);
      DistinctApart(batch, Join(rest), f);
      BatchFinishesFile(env, run, v, batch, f);
      AcksSpareOthers(env, run, Final(env, run, v, f), rest, f.path);
    } else {
      assert FileOf(batch, f.path).None? by { DistinctApart(Join(rest), batch, f); }
      BatchSparesOthers(env, run, v, batch, f.path);
      AcksFinishFile(env, run, v, rest, f);
    }
    SteadyConcat(env, run, v, first, later, f.path);
    ApplyViewsConcat(env, v, first, later, f.path);
  }

  lemma DistinctParts(a: seq<FileEntry>, b: seq<FileEntry>)
    requires DistinctPaths(a + b)
    ensures DistinctPaths(a) && DistinctPaths(b)
  {
    assert forall i :: 0 <= i < |a| ==> a[i] == (a + b)[i];
    assert forall i :: 0 <= i < |b| ==> b[i] == (a + b)[|a| + i];
  }

  lemma DistinctApart(a: seq<FileEntry>, b: seq<FileEntry>, f: FileEntry)
    requires (DistinctPaths(a + b) || DistinctPaths(b + a)) && f in a
    ensures FileOf(b, f.path).None?
  {
    var i :| 0 <= i < |a| && a[i] == f;
    forall j | 0 <= j < |b|
      ensures b[j].path != f.path
    {
      if DistinctPaths(a + b) {
        assert (a + b)[i].path != (a + b)[|a| + j].path;
      } else {
        assert (b + a)[j].path != (b + a)[|b| + i].path;
      }
    }
  }

  // ---------------------------------------------------------------- one path through a whole plan

  lemma ChangedMatches(env: Env, s: Store, run: Run, f: FileEntry)
    ensures Changed(env, s, run, f) == ChangedView(env, run, View(s, f.path), f)
  {
    var v := View(s, f.path);
    if id :| id in s.nodes && id.path == f.path && id !in s.vectors {
      assert id in v.nodes && id !in v.vectors;
    }
    if id :| id in v.nodes && id !in v.vectors {
      assert id in s.nodes && id.path == f.path && id !in s.vectors;
    }
  }

  lemma {:induction false} ParsedAt(env: Env, s: Store, run: Run, entries: seq<FileEntry>, f: FileEntry)
    ensures f in Parsed(env, s, run, entries) <==> f in entries && Changed(env, s, run, f) && env.parse(f).Some?
    decreases |entries|
  {
    if entries != [] {
      var init, last := entries[..|entries| - 1], entries[|entries| - 1];
      ParsedAt(env, s, run, init, f);
      assert entries == init + [last];
    }
  }

  lemma {:induction false} ParsedDistinct(env: Env, s: Store, run: Run, entries: seq<FileEntry>)
    requires DistinctPaths(entries)
    ensures DistinctPaths(Parsed(env, s, run, entries))
    decreases |entries|
  {
    if entries != [] {
      var init, last := entries[..|entries| - 1], entries[|entries| - 1];
      ParsedDistinct(env, s, run, init);
      forall f | f in Parsed(env, s, run, init)
        ensures f.path != last.path
      {
        ParsedAt(env, s, run, init, f);
        var i :| 0 <= i < |init| && init[i] == f;
        assert entries[i].path != entries[|entries| - 1].path;
      }
    }
  }

  /** The files of the plan other than `p`'s are none of `p`'s business. */
  lemma MainSparesOthers(env: Env, run: Run, v: FileView, parsed: seq<FileEntry>, batches: seq<seq<FileEntry>>, p: string)
    requires Fine(env, run, v, p) && FileOf(parsed, p).None? && Join(batches) == parsed
    ensures var main := [Clear(PathsOf(parsed)), Insert(parsed)] + AckEffects(env, run, batches);
            Steady(env, run, v, main, p) && ApplyViews(env, v, main, p) == v
  {
    PathsOfAt(parsed, p);
    SteadyOne(env, run, v, Clear(PathsOf(parsed)), p);
    SteadyOne(env, run, v, Insert(parsed), p);
    SteadyConcat(env, run, v, [Clear(PathsOf(parsed))], [Insert(parsed)], p);
    ApplyViewsConcat(env, v, [Clear(PathsOf(parsed))], [Insert(parsed)], p);
    var head := [Clear(PathsOf(parsed)), Insert(parsed)];
    assert head == [Clear(PathsOf(parsed))] + [Insert(parsed)];
    AcksSpareOthers(env, run, v, batches, p);
    SteadyConcat(env, run, v, head, AckEffects(env, run, batches), p);
    ApplyViewsConcat(env, v, head, AckEffects(env, run, batches), p);
  }

  lemma MainIndexesFile(env: Env, run: Run, v: FileView, parsed: seq<FileEntry>, batches: seq<seq<FileEntry>>, f: FileEntry)
    requires ProperRun(run) && Fine(env, run, v, f.path) && f in parsed && DistinctPaths(parsed) && Join(batches) == parsed
    requires FileOf(run.entries, f.path) == Some(f) && Indexes(env, run, v, f) && Unmarked(run, v, f.path)
    ensures var main := [Clear(PathsOf(parsed)), Insert(parsed)] + AckEffects(env, run, batches);
            Steady(env, run, v, main, f.path) && ApplyViews(env, v, main, f.path) == Final(env, run, v, f)
  {
    var p := f.path;
    FileOfUnique(parsed, f);
    PathsOfAt(parsed, p);
    var v1 := v.(nodes := map[], vectors := map[]);
    var v2 := v1.(nodes := Planned(env, f));
    assert map[] + Planned(env, f) == Planned(env, f);
    assert Planned(env, f) == map[] ==> Vectors(env, f) == map[];
    SteadyOne(env, run, v, Clear(PathsOf(parsed)), p);
    SteadyOne(env, run, v1, Insert(parsed), p);
    SteadyConcat(env, run, v, [Clear(PathsOf(parsed))], [Insert(parsed)], p);
    ApplyViewsConcat(env, v, [Clear(PathsOf(parsed))], [Insert(parsed)], p);
    var head := [Clear(PathsOf(parsed)), Insert(parsed)];
    assert head == [Clear(PathsOf(parsed))] + [Insert(parsed)];
    AcksFinishFile(env, run, v2, batches, f);
    SteadyConcat(env, run, v, head, AckEffects(env, run, batches), p);
    ApplyViewsConcat(env, v, head, AckEffects(env, run, batches), p);
  }

  lemma MainReplay(env: Env, s: Store, run: Run, batches: seq<seq<FileEntry>>, p: string)
    requires ProperRun(run) && Fine(env, run, View(s, p), p) && FileOf(run.entries, p).Some? && Unmarked(run, View(s, p), p)
    requires Join(batches) == Parsed(env, s, run, run.entries)
    ensures var parsed := Parsed(env, s, run, run.entries);
            var main := (if parsed == [] then [] else [Clear(PathsOf(parsed)), Insert(parsed)]) + AckEffects(env, run, batches);
            Steady(env, run, View(s, p), main, p) && ApplyViews(env, View(s, p), main, p) == Goal(env, run, View(s, p), p)
  {
    var v, f, parsed := View(s, p), FileOf(run.entries, p).value, Parsed(env, s, run, run.entries);
    ParsedDistinct(env, s, run, run.entries);
    ParsedAt(env, s, run, run.entries, f);
    ChangedMatches(env, s, run, f);
    if Indexes(env, run, v, f) {
      MainIndexesFile(env, run, v, parsed, batches, f);
    } else {
      OnlyEntriesParsed(env, s, run, p);
      if parsed != [] {
        MainSparesOthers(env, run, v, parsed, batches, p);
      } else {
        AcksSpareOthers(env, run, v, batches, p);
        assert [] + AckEffects(env, run, batches) == AckEffects(env, run, batches);
      }
    }
  }

  /** A path whose own entry is not indexed has no entry among the parsed files. */
  lemma OnlyEntriesParsed(env: Env, s: Store, run: Run, p: string)
    requires DistinctPaths(run.entries)
    requires FileOf(run.entries, p).Some? ==> !Indexes(env, run, View(s, p), FileOf(run.entries, p).value)
    ensures FileOf(Parsed(env, s, run, run.entries), p).None?
  {
    if FileOf(Parsed(env, s, run, run.entries), p).Some? {
      var g := FileOf(Parsed(env, s, run, run.entries), p).value;
      ParsedAt(env, s, run, run.entries, g);
      FileOfUnique(run.entries, g);
      ChangedMatches(env, s, run, g);
    }
  }
}
