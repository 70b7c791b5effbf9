/**
The durable effects of incremental indexing (src/scs/indexing/pipeline.py).

A run reads the store once, decides what changed, and then carries out a plan: a sequence of effects
each of which is one transaction of the native store.  A crash, a cancellation or an embedding outage
stops the run after some prefix of its plan.
*/
module Pipeline {
  import opened Outcome
  import opened Batching

  // ---------------------------------------------------------------- sources and planned nodes

  datatype Entity = Entity(kind: string, name: string, text: string)

  datatype FileEntry = FileEntry(path: string, hash: string)

  type Vector = seq<real>

  /** Parsing depends on the content its hash stands for; embedding depends on the text alone. */
  datatype Env = Env(parse: FileEntry -> Option<seq<Entity>>, embed: string -> Vector, semantic: bool)

  /** Repeated symbols of a file are told apart by their ordinal among the same kind and name. */
  datatype NodeId = NodeId(path: string, kind: string, name: string, occurrence: nat)

  function Occurrence(entities: seq<Entity>, upTo: nat, kind: string, name: string): nat
    requires upTo <= |entities|
  {
    if upTo == 0 then 0
    else
      Occurrence(entities, upTo - 1, kind, name)
      + (if entities[upTo - 1].kind == kind && entities[upTo - 1].name == name then 1 else 0)
  }

  function NodeIdAt(path: string, entities: seq<Entity>, i: nat): NodeId
    requires i < |entities|
  {
    NodeId(path, entities[i].kind, entities[i].name, Occurrence(entities, i, entities[i].kind, entities[i].name))
  }

  lemma {:induction false} OccurrenceGrows(entities: seq<Entity>, i: nat, j: nat, kind: string, name: string)
    requires i <= j <= |entities|
    ensures Occurrence(entities, i, kind, name) <= Occurrence(entities, j, kind, name)
    decreases j
  {
    if i < j {
      OccurrenceGrows(entities, i, j - 1, kind, name);
    }
  }

  /** The positions of a symbol before n. */
  function Equals(entities: seq<Entity>, n: nat, kind: string, name: string): set<nat>
    requires n <= |entities|
  {
    set i: nat | i < n && entities[i].kind == kind && entities[i].name == name
  }

  lemma {:induction false} OccurrenceCounts(entities: seq<Entity>, n: nat, kind: string, name: string)
    requires n <= |entities|
    ensures Occurrence(entities, n, kind, name) == |Equals(entities, n, kind, name)|
  {
    if n > 0 {
      OccurrenceCounts(entities, n - 1, kind, name);
      var mine := if entities[n - 1].kind == kind && entities[n - 1].name == name then {n - 1} else {};
      assert Equals(entities, n, kind, name) == Equals(entities, n - 1, kind, name) + mine;
    }
  }

  /** A node is identified by its file, its kind and name, and the number of its equals before it. */
  lemma NodeIdExactly(path: string, entities: seq<Entity>, i: nat)
    requires i < |entities|
    ensures NodeIdAt(path, entities, i) ==
            NodeId(path, entities[i].kind, entities[i].name,
                   |set j: nat | j < i && entities[j].kind == entities[i].kind && entities[j].name == entities[i].name|)
  {
    OccurrenceCounts(entities, i, entities[i].kind, entities[i].name);
    assert Equals(entities, i, entities[i].kind, entities[i].name)
        == set j: nat | j < i && entities[j].kind == entities[i].kind && entities[j].name == entities[i].name;
  }

  /** Within a file every entity has a node id of its own. */
  lemma NodeIdsDistinct(path: string, entities: seq<Entity>, i: nat, j: nat)
    requires i < j < |entities|
    ensures NodeIdAt(path, entities, i) != NodeIdAt(path, entities, j)
  {
    OccurrenceGrows(entities, i + 1, j, entities[i].kind, entities[i].name);
  }

  function NodesUpTo(path: string, entities: seq<Entity>, n: nat): map<NodeId, Entity>
    requires n <= |entities|
  {
    if n == 0 then map[] else NodesUpTo(path, entities, n - 1)[NodeIdAt(path, entities, n - 1) := entities[n - 1]]
  }

  lemma {:induction false} NodesUpToIds(path: string, entities: seq<Entity>, n: nat, id: NodeId)
    requires n <= |entities| && id in NodesUpTo(path, entities, n)
    ensures id.path == path && exists i: nat :: i < n && NodeIdAt(path, entities, i) == id
  {
    if id == NodeIdAt(path, entities, n - 1) {
      assert n - 1 < n;
    } else {
      NodesUpToIds(path, entities, n - 1, id);
      var i: nat :| i < n - 1 && NodeIdAt(path, entities, i) == id;
      assert i < n;
    }
  }

  lemma {:induction false} NodesUpToHolds(path: string, entities: seq<Entity>, n: nat, i: nat)
    requires i < n <= |entities|
    ensures NodeIdAt(path, entities, i) in NodesUpTo(path, entities, n)
    ensures NodesUpTo(path, entities, n)[NodeIdAt(path, entities, i)] == entities[i]
    decreases n
  {
    if i < n - 1 {
      NodesUpToHolds(path, entities, n - 1, i);
      NodeIdsDistinct(path, entities, i, n - 1);
    }
  }

  /** One node per entity: nothing is merged and nothing is lost. */
  lemma {:induction false} OneNodePerEntity(path: string, entities: seq<Entity>, n: nat)
    requires n <= |entities|
    ensures |NodesUpTo(path, entities, n)| == n
  {
    if n > 0 {
      OneNodePerEntity(path, entities, n - 1);
      var id := NodeIdAt(path, entities, n - 1);
      if id in NodesUpTo(path, entities, n - 1) {
        NodesUpToIds(path, entities, n - 1, id);
        var i: nat :| i < n - 1 && NodeIdAt(path, entities, i) == id;
        NodeIdsDistinct(path, entities, i, n - 1);
      }
    }
  }

  function Planned(env: Env, f: FileEntry): map<NodeId, Entity> {
    match env.parse(f)
    case Some(entities) => NodesUpTo(f.path, entities, |entities|)
    case None => map[]
  }

  function Vectors(env: Env, f: FileEntry): map<NodeId, Vector> {
    if env.semantic then map id | id in Planned(env, f) :: env.embed(Planned(env, f)[id].text) else map[]
  }

  lemma PlannedPaths(env: Env, f: FileEntry)
    ensures forall id :: id in Planned(env, f) ==> id.path == f.path
  {
    if env.parse(f).Some? {
      var entities := env.parse(f).value;
      forall id | id in NodesUpTo(f.path, entities, |entities|)
        ensures id.path == f.path
      {
        NodesUpToIds(f.path, entities, |entities|, id);
      }
    }
  }

  // ---------------------------------------------------------------- the store and its effects

  /** Nodes with their file in the id, vectors, acknowledged hashes, and the running force job's manifest marks. */
  datatype Store = Store(
    nodes: map<NodeId, Entity>, vectors: map<NodeId, Vector>, records: map<string, string>, marked: set<string>)

  const EMPTY := Store(map[], map[], map[], {})

  datatype Effect =
    | Clear(paths: set<string>)
    | Insert(files: seq<FileEntry>)
    | Embed(files: seq<FileEntry>)
    | Ack(files: seq<FileEntry>)
    | Mark(files: seq<FileEntry>)
    | Forget(paths: set<string>)

  function PlannedAll(env: Env, files: seq<FileEntry>): map<NodeId, Entity> {
    if files == [] then map[] else PlannedAll(env, files[..|files| - 1]) + Planned(env, files[|files| - 1])
  }

  function VectorsAll(env: Env, files: seq<FileEntry>): map<NodeId, Vector> {
    if files == [] then map[] else VectorsAll(env, files[..|files| - 1]) + Vectors(env, files[|files| - 1])
  }

  function RecordsAll(files: seq<FileEntry>): map<string, string> {
    if files == [] then map[] else RecordsAll(files[..|files| - 1])[files[|files| - 1].path := files[|files| - 1].hash]
  }

  function PathsOf(files: seq<FileEntry>): set<string> {
    set i | 0 <= i < |files| :: files[i].path
  }

  /** Deleting nodes cascades to their vectors. */
  function Apply(env: Env, s: Store, e: Effect): Store {
    match e
    case Clear(paths) =>
      s.(nodes := map id | id in s.nodes && id.path !in paths :: s.nodes[id],
         vectors := map id | id in s.vectors && id.path !in paths :: s.vectors[id])
    case Insert(files) => s.(nodes := s.nodes + PlannedAll(env, files))
    case Embed(files) => s.(vectors := s.vectors + VectorsAll(env, files))
    case Ack(files) => s.(records := s.records + RecordsAll(files))
    case Mark(files) => s.(marked := s.marked + PathsOf(files))
    case Forget(paths) => s.(records := s.records - paths)
  }

  function ApplyAll(env: Env, s: Store, effects: seq<Effect>): Store {
    if effects == [] then s else Apply(env, ApplyAll(env, s, effects[..|effects| - 1]), effects[|effects| - 1])
  }

  // ---------------------------------------------------------------- one run

  /** What a run is asked to do; `manifest` runs mark each acknowledged batch in their job's manifest. */
  datatype Run = Run(entries: seq<FileEntry>, force: bool, sweep: bool, manifest: bool)

  predicate DistinctPaths(entries: seq<FileEntry>) {
    forall i, j :: 0 <= i < j < |entries| ==> entries[i].path != entries[j].path
  }

  predicate Missing(env: Env, s: Store, path: string) {
    env.semantic && exists id :: id in s.nodes && id.path == path && id !in s.vectors
  }

  predicate Changed(env: Env, s: Store, run: Run, f: FileEntry) {
    run.force || !(f.path in s.records && s.records[f.path] == f.hash) || Missing(env, s, f.path)
  }

  /** The changed files that parse, in their order. */
  function Parsed(env: Env, s: Store, run: Run, entries: seq<FileEntry>): seq<FileEntry> {
    if entries == [] then []
    else
      var last := entries[|entries| - 1];
      Parsed(env, s, run, entries[..|entries| - 1])
      + (if Changed(env, s, run, last) && env.parse(last).Some? then [last] else [])
  }

  /** Indexed paths that were not discovered. */
  function Stale(s: Store, run: Run): set<string> {
    (set id | id in s.nodes :: id.path) + s.records.Keys - PathsOf(run.entries)
  }

  function SweepEffects(batches: seq<set<string>>): seq<Effect> {
    if batches == [] then [] else SweepEffects(batches[..|batches| - 1]) + [Clear(batches[|batches| - 1]), Forget(batches[|batches| - 1])]
  }

  function BatchEffects(env: Env, run: Run, batch: seq<FileEntry>): seq<Effect> {
    (if env.semantic then [Embed(batch)] else []) + [Ack(batch)] + (if run.manifest then [Mark(batch)] else [])
  }

  function AckEffects(env: Env, run: Run, batches: seq<seq<FileEntry>>): seq<Effect> {
    if batches == [] then [] else BatchEffects(env, run, batches[0]) + AckEffects(env, run, batches[1..])
  }

  /** The stale paths, each in exactly one batch. */
  ghost predicate Covers(batches: seq<set<string>>, paths: set<string>) {
    && (forall i :: 0 <= i < |batches| ==> batches[i] <= paths)
    && (forall p :: p in paths ==> exists i :: 0 <= i < |batches| && p in batches[i])
  }

  function PlanOf(env: Env, s: Store, run: Run, sweeps: seq<set<string>>, batches: seq<seq<FileEntry>>): seq<Effect> {
    var parsed := Parsed(env, s, run, run.entries);
    SweepEffects(sweeps)
    + (if parsed == [] then [] else [Clear(PathsOf(parsed)), Insert(parsed)])
    + AckEffects(env, run, batches)
  }

  /** A plan for a run: any batching of the stale paths, and any batching of the parsed files. */
  ghost predicate IsPlan(env: Env, s: Store, run: Run, plan: seq<Effect>) {
    exists sweeps, batches ::
      && Covers(sweeps, if run.sweep then Stale(s, run) else {})
      && Join(batches) == Parsed(env, s, run, run.entries)
      && plan == PlanOf(env, s, run, sweeps, batches)
  }
}
