/** What a run does to one file: every effect of the store acts on each path separately. */
module FileViews {
  import opened Outcome
  import opened Pipeline

  datatype FileView = FileView(
    nodes: map<NodeId, Entity>, vectors: map<NodeId, Vector>, record: Option<string>, marked: bool)

  /** The part of a map that belongs to a path. */
  function Part<V>(m: map<NodeId, V>, p: string): map<NodeId, V> {
    map id | id in m && id.path == p :: m[id]
  }

  function View(s: Store, p: string): FileView {
    FileView(
      Part(s.nodes, p),
      Part(s.vectors, p),
      if p in s.records then Some(s.records[p]) else None,
      p in s.marked)
  }

  /** Every vector belongs to a node: deletion cascades. */
  ghost predicate Sane(v: FileView) {
    forall id :: id in v.vectors ==> id in v.nodes
  }

  /** Two stores that agree on every path are the same store. */
  lemma ViewsDetermineStore(s: Store, s': Store)
    requires forall p :: View(s, p) == View(s', p)
    ensures s == s'
  {
    forall id: NodeId
      ensures id in s.nodes <==> id in s'.nodes
      ensures id in s.nodes ==> s.nodes[id] == s'.nodes[id]
      ensures id in s.vectors <==> id in s'.vectors
      ensures id in s.vectors ==> s.vectors[id] == s'.vectors[id]
    {
      var v, v' := View(s, id.path), View(s', id.path);
      assert v.nodes == v'.nodes && v.vectors == v'.vectors;
      assert id in s.nodes <==> id in v.nodes;
      assert id in s.vectors <==> id in v.vectors;
    }
    forall p: string
      ensures p in s.records <==> p in s'.records
      ensures p in s.records ==> s.records[p] == s'.records[p]
      ensures p in s.marked <==> p in s'.marked
    {
      assert View(s, p) == View(s', p);
    }
    assert s.nodes == s'.nodes && s.vectors == s'.vectors && s.records == s'.records && s.marked == s'.marked;
  }

  function FileOf(files: seq<FileEntry>, p: string): (r: Option<FileEntry>)
    ensures r.Some? ==> r.value in files && r.value.path == p
    ensures r.None? ==> forall f :: f in files ==> f.path != p
  {
    if files == [] then None
    else if files[|files| - 1].path == p then Some(files[|files| - 1])
    else FileOf(files[..|files| - 1], p)
  }

  lemma FileOfUnique(files: seq<FileEntry>, f: FileEntry)
    requires DistinctPaths(files) && f in files
    ensures FileOf(files, f.path) == Some(f)
  {
  }

  lemma {:induction false} FileOfConcat(a: seq<FileEntry>, b: seq<FileEntry>, p: string)
    ensures FileOf(a + b, p) == if FileOf(b, p).Some? then FileOf(b, p) else FileOf(a, p)
    decreases |b|
  {
    if b == [] {
      assert a + b == a;
    } else {
      assert (a + b)[..|a + b| - 1] == a + b[..|b| - 1];
      FileOfConcat(a, b[..|b| - 1], p);
    }
  }

  function ApplyView(env: Env, v: FileView, e: Effect, p: string): FileView {
    match e
    case Clear(paths) => if p in paths then v.(nodes := map[], vectors := map[]) else v
    case Forget(paths) => if p in paths then v.(record := None) else v
    case _ =>
      (match FileOf(e.files, p)
       case None => v
       case Some(f) =>
         match e
         case Insert(_) => v.(nodes := v.nodes + Planned(env, f))
         case Embed(_) => v.(vectors := v.vectors + Vectors(env, f))
         case Ack(_) => v.(record := Some(f.hash))
         case _ => v.(marked := true))
  }

  function ApplyViews(env: Env, v: FileView, effects: seq<Effect>, p: string): FileView {
    if effects == [] then v
    else ApplyView(env, ApplyViews(env, v, effects[..|effects| - 1], p), effects[|effects| - 1], p)
  }

  predicate Proper(e: Effect) {
    e.Clear? || e.Forget? || DistinctPaths(e.files)
  }

  // ---------------------------------------------------------------- effects act pathwise

  lemma {:induction false} PlannedAllAt(env: Env, files: seq<FileEntry>, id: NodeId)
    requires DistinctPaths(files)
    ensures id in PlannedAll(env, files) <==> FileOf(files, id.path).Some? && id in Planned(env, FileOf(files, id.path).value)
    ensures id in PlannedAll(env, files) ==> PlannedAll(env, files)[id] == Planned(env, FileOf(files, id.path).value)[id]
    decreases |files|
  {
    if files != [] {
      var init, last := files[..|files| - 1], files[|files| - 1];
      PlannedAllAt(env, init, id);
      PlannedPaths(env, last);
      if last.path == id.path {
        assert FileOf(init, id.path).None?;
      }
    }
  }

  lemma {:induction false} VectorsAllAt(env: Env, files: seq<FileEntry>, id: NodeId)
    requires DistinctPaths(files)
    ensures id in VectorsAll(env, files) <==> FileOf(files, id.path).Some? && id in Vectors(env, FileOf(files, id.path).value)
    ensures id in VectorsAll(env, files) ==> VectorsAll(env, files)[id] == Vectors(env, FileOf(files, id.path).value)[id]
    decreases |files|
  {
    if files != [] {
      var init, last := files[..|files| - 1], files[|files| - 1];
      VectorsAllAt(env, init, id);
      PlannedPaths(env, last);
      if last.path == id.path {
        assert FileOf(init, id.path).None?;
      }
    }
  }

  lemma {:induction false} RecordsAllAt(files: seq<FileEntry>, p: string)
    ensures p in RecordsAll(files) <==> FileOf(files, p).Some?
    ensures p in RecordsAll(files) ==> RecordsAll(files)[p] == FileOf(files, p).value.hash
    decreases |files|
  {
    if files != [] {
      RecordsAllAt(files[..|files| - 1], p);
    }
  }

  lemma PathsOfAt(files: seq<FileEntry>, p: string)
    ensures p in PathsOf(files) <==> FileOf(files, p).Some?
  {
  }

  lemma EffectIsPathwise(env: Env, s: Store, e: Effect, p: string)
    requires Proper(e)
    ensures View(Apply(env, s, e), p) == ApplyView(env, View(s, p), e, p)
  {
    match e
    case Clear(paths) =>
    case Forget(paths) =>
    case Insert(files) => InsertIsPathwise(env, s, files, p);
    case Embed(files) => EmbedIsPathwise(env, s, files, p);
    case Ack(files) => RecordsAllAt(files, p);
    case Mark(files) => PathsOfAt(files, p);
  }

  lemma PartOfSum<V>(m: map<NodeId, V>, added: map<NodeId, V>, mine: map<NodeId, V>, p: string)
    requires Part(added, p) == mine
    ensures Part(m + added, p) == Part(m, p) + mine
  {
  }

  lemma PlannedPart(env: Env, files: seq<FileEntry>, p: string)
    requires DistinctPaths(files)
    ensures Part(PlannedAll(env, files), p) == if FileOf(files, p).Some? then Planned(env, FileOf(files, p).value) else map[]
  {
    var mine := if FileOf(files, p).Some? then Planned(env, FileOf(files, p).value) else map[];
    if FileOf(files, p).Some? { PlannedPaths(env, FileOf(files, p).value); }
    forall id: NodeId
      ensures id in Part(PlannedAll(env, files), p) <==> id in mine
      ensures id in mine ==> Part(PlannedAll(env, files), p)[id] == mine[id]
    {
      PlannedAllAt(env, files, id);
    }
  }

  lemma VectorsPart(env: Env, files: seq<FileEntry>, p: string)
    requires DistinctPaths(files)
    ensures Part(VectorsAll(env, files), p) == if FileOf(files, p).Some? then Vectors(env, FileOf(files, p).value) else map[]
  {
    var mine := if FileOf(files, p).Some? then Vectors(env, FileOf(files, p).value) else map[];
    if FileOf(files, p).Some? { PlannedPaths(env, FileOf(files, p).value); }
    forall id: NodeId
      ensures id in Part(VectorsAll(env, files), p) <==> id in mine
      ensures id in mine ==> Part(VectorsAll(env, files), p)[id] == mine[id]
    {
      VectorsAllAt(env, files, id);
    }
  }

  lemma InsertIsPathwise(env: Env, s: Store, files: seq<FileEntry>, p: string)
    requires DistinctPaths(files)
    ensures View(Apply(env, s, Insert(files)), p) == ApplyView(env, View(s, p), Insert(files), p)
  {
    PlannedPart(env, files, p);
    PartOfSum(s.nodes, PlannedAll(env, files), Part(PlannedAll(env, files), p), p);
  }

  lemma EmbedIsPathwise(env: Env, s: Store, files: seq<FileEntry>, p: string)
    requires DistinctPaths(files)
    ensures View(Apply(env, s, Embed(files)), p) == ApplyView(env, View(s, p), Embed(files), p)
  {
    VectorsPart(env, files, p);
    PartOfSum(s.vectors, VectorsAll(env, files), Part(VectorsAll(env, files), p), p);
  }

  lemma {:induction false} EffectsArePathwise(env: Env, s: Store, effects: seq<Effect>, p: string)
    requires forall i :: 0 <= i < |effects| ==> Proper(effects[i])
    ensures View(ApplyAll(env, s, effects), p) == ApplyViews(env, View(s, p), effects, p)
    decreases |effects|
  {
    if effects != [] {
      var init := effects[..|effects| - 1];
      EffectsArePathwise(env, s, init, p);
      EffectIsPathwise(env, ApplyAll(env, s, init), effects[|effects| - 1], p);
    }
  }

  lemma {:induction false} ApplyViewsConcat(env: Env, v: FileView, a: seq<Effect>, b: seq<Effect>, p: string)
    ensures ApplyViews(env, v, a + b, p) == ApplyViews(env, ApplyViews(env, v, a, p), b, p)
    decreases |b|
  {
    if b == [] {
      assert a + b == a;
    } else {
      assert (a + b)[..|a + b| - 1] == a + b[..|b| - 1];
      ApplyViewsConcat(env, v, a, b[..|b| - 1], p);
    }
  }

  lemma ApplyViewsSnoc(env: Env, v: FileView, effects: seq<Effect>, e: Effect, p: string)
    ensures ApplyViews(env, v, effects + [e], p) == ApplyView(env, ApplyViews(env, v, effects, p), e, p)
  {
  }

  lemma ApplyViewsOne(env: Env, v: FileView, e: Effect, p: string)
    ensures ApplyViews(env, v, [e], p) == ApplyView(env, v, e, p)
  {
  }

  lemma ApplyViewsTwo(env: Env, v: FileView, a: Effect, b: Effect, p: string)
    ensures ApplyViews(env, v, [a, b], p) == ApplyView(env, ApplyView(env, v, a, p), b, p)
  {
    ApplyViewsOne(env, v, a, p);
    ApplyViewsSnoc(env, v, [a], b, p);
    assert [a] + [b] == [a, b];
  }
}
