/**
What an indexing run that finishes leaves of every file (src/scs/indexing/pipeline.py:348-461 and 713-812), said of the
store itself: outdated files are indexed as they parse, undiscovered ones are gone, and nothing else moves.
*/
module FinishedRuns {
  import opened Outcome
  import opened Pipeline
  import opened FileViews
  import opened CrashReplay
  import opened Convergence

  /** A file has to be indexed: by force, because its content moved, or because one of its nodes has no vector. */
  predicate Outdated(env: Env, s: Store, run: Run, f: FileEntry) {
    || run.force
    || f.path !in s.records
    || s.records[f.path] != f.hash
    || (env.semantic && exists id :: id in s.nodes && id.path == f.path && id !in s.vectors)
  }

  /** The store holds exactly the entities of a file, each embedded by its own text, at the hash of its content. */
  ghost predicate Holds(env: Env, s: Store, f: FileEntry, entities: seq<Entity>) {
    && f.path in s.records && s.records[f.path] == f.hash
    && (forall i: nat :: i < |entities| ==>
          NodeIdAt(f.path, entities, i) in s.nodes && s.nodes[NodeIdAt(f.path, entities, i)] == entities[i])
    && (forall id :: id in s.nodes && id.path == f.path ==> exists i: nat :: i < |entities| && id == NodeIdAt(f.path, entities, i))
    && (forall id: NodeId :: id.path == f.path ==> (id in s.vectors <==> env.semantic && id in s.nodes))
    && (forall id :: id in s.vectors && id.path == f.path ==> s.vectors[id] == env.embed(s.nodes[id].text))
  }

  ghost predicate SameAt(before: Store, after: Store, p: string) {
    && (forall id: NodeId :: id.path == p ==>
          && (id in after.nodes <==> id in before.nodes) && (id in after.vectors <==> id in before.vectors)
          && (id in after.nodes ==> after.nodes[id] == before.nodes[id])
          && (id in after.vectors ==> after.vectors[id] == before.vectors[id]))
    && (p in after.records <==> p in before.records)
    && (p in after.records ==> after.records[p] == before.records[p])
  }

  ghost predicate HoldsNothing(s: Store, p: string) {
    p !in s.records && forall id: NodeId :: id.path == p ==> id !in s.nodes && id !in s.vectors
  }

  lemma OutdatedExactly(env: Env, s: Store, run: Run, f: FileEntry)
    ensures Outdated(env, s, run, f) <==> ChangedView(env, run, View(s, f.path), f)
  {
    ChangedMatches(env, s, run, f);
  }

  lemma PlannedHold(env: Env, f: FileEntry, entities: seq<Entity>)
    requires env.parse(f) == Some(entities)
    ensures forall i: nat :: i < |entities| ==>
              NodeIdAt(f.path, entities, i) in Planned(env, f) && Planned(env, f)[NodeIdAt(f.path, entities, i)] == entities[i]
    ensures forall id :: id in Planned(env, f) ==> exists i: nat :: i < |entities| && id == NodeIdAt(f.path, entities, i)
  {
    forall i: nat | i < |entities|
      ensures NodeIdAt(f.path, entities, i) in Planned(env, f) && Planned(env, f)[NodeIdAt(f.path, entities, i)] == entities[i]
    {
      NodesUpToHolds(f.path, entities, |entities|, i);
    }
    forall id | id in Planned(env, f)
      ensures exists i: nat :: i < |entities| && id == NodeIdAt(f.path, entities, i)
    {
      NodesUpToIds(f.path, entities, |entities|, id);
      var i: nat :| i < |entities| && NodeIdAt(f.path, entities, i) == id;
    }
  }

  lemma FinalHolds(env: Env, s: Store, f: FileEntry, entities: seq<Entity>)
    requires env.parse(f) == Some(entities) && WellFormed(s)
    requires View(s, f.path).nodes == Planned(env, f) && View(s, f.path).vectors == Vectors(env, f)
    requires View(s, f.path).record == Some(f.hash)
    ensures Holds(env, s, f, entities)
  {
    PlannedHold(env, f, entities);
    forall id: NodeId | id.path == f.path
      ensures id in s.nodes <==> id in Planned(env, f)
      ensures id in s.nodes ==> s.nodes[id] == Planned(env, f)[id]
      ensures id in s.vectors <==> id in Vectors(env, f)
      ensures id in s.vectors ==> s.vectors[id] == Vectors(env, f)[id]
    {
      assert id in s.nodes <==> id in View(s, f.path).nodes;
      assert id in s.vectors <==> id in View(s, f.path).vectors;
    }
    assert forall i: nat :: i < |entities| ==> NodeIdAt(f.path, entities, i).path == f.path;
  }

  /** A discovered file that is outdated and parses is indexed as it parses. */
  lemma OutdatedIsIndexed(env: Env, s: Store, run: Run, plan: seq<Effect>, f: FileEntry, entities: seq<Entity>)
    requires ProperRun(run) && !run.manifest && WellFormed(s) && IsPlan(env, s, run, plan)
    requires f in run.entries && env.parse(f) == Some(entities) && Outdated(env, s, run, f)
    ensures Holds(env, ApplyAll(env, s, plan), f, entities)
  {
    OutdatedExactly(env, s, run, f);
    FileOfUnique(run.entries, f);
    CompleteRun(env, s, run, plan, f.path);
    CompleteRunWellFormed(env, s, run, plan);
    FinalHolds(env, ApplyAll(env, s, plan), f, entities);
  }

  lemma SameViewSameAt(before: Store, after: Store, p: string)
    requires View(before, p) == View(after, p)
    ensures SameAt(before, after, p)
  {
    forall id: NodeId | id.path == p
      ensures id in after.nodes <==> id in before.nodes
      ensures id in after.nodes ==> after.nodes[id] == before.nodes[id]
      ensures id in after.vectors <==> id in before.vectors
      ensures id in after.vectors ==> after.vectors[id] == before.vectors[id]
    {
      assert id in before.nodes <==> id in View(before, p).nodes;
      assert id in before.vectors <==> id in View(before, p).vectors;
    }
  }

  /** A file that is up to date, or that does not parse, is left as it was; so is an undiscovered one without a sweep. */
  lemma OthersAreKept(env: Env, s: Store, run: Run, plan: seq<Effect>, p: string)
    requires ProperRun(run) && !run.manifest && WellFormed(s) && IsPlan(env, s, run, plan)
    requires forall f :: f in run.entries && f.path == p ==> !Outdated(env, s, run, f) || env.parse(f).None?
    requires run.sweep ==> exists f :: f in run.entries && f.path == p
    ensures SameAt(s, ApplyAll(env, s, plan), p)
  {
    var found := FileOf(run.entries, p);
    if found.Some? {
      OutdatedExactly(env, s, run, found.value);
    }
    CompleteRun(env, s, run, plan, p);
    SameViewSameAt(s, ApplyAll(env, s, plan), p);
  }

  /** A sweeping run leaves nothing of a file that was not discovered. */
  lemma UndiscoveredIsSwept(env: Env, s: Store, run: Run, plan: seq<Effect>, p: string)
    requires ProperRun(run) && !run.manifest && WellFormed(s) && IsPlan(env, s, run, plan)
    requires run.sweep && forall f :: f in run.entries ==> f.path != p
    ensures HoldsNothing(ApplyAll(env, s, plan), p)
  {
    var s1 := ApplyAll(env, s, plan);
    CompleteRun(env, s, run, plan, p);
    forall id: NodeId | id.path == p
      ensures id !in s1.nodes && id !in s1.vectors
    {
      assert id in s1.nodes <==> id in View(s1, p).nodes;
      assert id in s1.vectors <==> id in View(s1, p).vectors;
    }
  }
}
