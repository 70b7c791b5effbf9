/**
One ingestion run as the program carries it out (src/scs/indexing/pipeline.py:348-461, 506-627 and 713-812).

The class holds the native store and a ghost log of the durable effects so far.  Whatever ends the run, the
log is a prefix of one of the plans of module Pipeline, so the laws proved about plans are laws about this code;
a crash leaves the state after a prefix of the log.
*/
module PipelineRuns {
  import opened Outcome
  import opened Batching
  import opened Pipeline
  import opened FileViews
  import opened CrashReplay
  import opened Convergence
  import opened FilesJobs

  /** The places where a cancellation request is noticed. */
  datatype Check = AtSweep(chunk: nat) | BeforeParse | AfterParse | AtBatch(batch: nat)

  /** What a batch meets: a lost provider, or sources (or vectors) that fail their last look. */
  datatype Fate = Sound | Outage | Unstable

  datatype Circumstances = Circumstances(cancelled: Check -> bool, fate: nat -> Fate)

  datatype Status = Finished | Cancelled | Degraded

  datatype IngestionResult = IngestionResult(status: Status, changed: nat, deleted: nat, failed: nat)

  /** How far a run came: which paths it swept, in how many chunks, and how many of its batches it acknowledged. */
  datatype Trace = Trace(order: seq<string>, swept: nat, batches: seq<seq<FileEntry>>, indexed: nat)

  // ---------------------------------------------------------------- what a run meets

  /** No cancellation is noticed before any of the first n chunks. */
  ghost predicate SweptUpTo(c: Circumstances, n: nat) {
    forall k: nat :: k < n ==> !c.cancelled(AtSweep(k))
  }

  /** The first n batches are sound, and no cancellation is noticed before any of them. */
  ghost predicate IndexedUpTo(c: Circumstances, n: nat) {
    forall k: nat :: k < n ==> c.fate(k) == Sound && !c.cancelled(AtBatch(k))
  }

  function RoundStatus(c: Circumstances, b: nat): Status {
    if c.cancelled(AtBatch(b)) then Cancelled else if c.fate(b) == Sound then Finished else Degraded
  }

  /** The batches up to `indexed` went well, and the next one, if there is one, ends the run. */
  ghost predicate StopsAt(c: Circumstances, batches: seq<seq<FileEntry>>, indexed: nat, status: Status) {
    && indexed <= |batches| && IndexedUpTo(c, indexed)
    && (status == Finished <==> indexed == |batches|)
    && (indexed < |batches| ==> status == RoundStatus(c, indexed))
  }

  /** What an unsound batch leaves: its vectors, if the provider delivered them, and no acknowledgement. */
  function Unacknowledged(env: Env, batch: seq<FileEntry>, fate: Fate): seq<Effect> {
    if env.semantic && fate == Unstable then [Embed(batch)] else []
  }

  /** The effects of the batches up to `indexed`, and of the one that ends the run. */
  function BatchLog(env: Env, run: Run, c: Circumstances, batches: seq<seq<FileEntry>>, indexed: nat): seq<Effect>
    requires indexed <= |batches|
  {
    AckEffects(env, run, batches[..indexed])
    + (if indexed < |batches| && !c.cancelled(AtBatch(indexed)) then Unacknowledged(env, batches[indexed], c.fate(indexed)) else [])
  }

  function EntitiesOf(env: Env): FileEntry -> nat {
    f => EntityCount(env, f)
  }

  /** Complete files in order, within 32 files and 512 entities, each batch as full as it can be. */
  ghost predicate Greedy(env: Env, batches: seq<seq<FileEntry>>, parsed: seq<FileEntry>) {
    && Join(batches) == parsed
    && AllFit(batches, EntitiesOf(env), 32, 512)
    && Packed(batches, EntitiesOf(env), 32, 512)
  }

  /** The stale paths of a run, each once. */
  ghost predicate SweepOrder(s: Store, run: Run, order: seq<string>) {
    Lists(order, if run.sweep then Stale(s, run) else {})
  }

  ghost predicate Lists(order: seq<string>, paths: set<string>) {
    |order| == |paths| && forall p :: p in paths <==> p in order
  }

  ghost predicate SweptTo(c: Circumstances, order: seq<string>, n: nat) {
    n <= ChunkCount(order) && SweptUpTo(c, n) && (n < ChunkCount(order) ==> c.cancelled(AtSweep(n)))
  }

  function Replacing(parsed: seq<FileEntry>): seq<Effect> {
    if parsed == [] then [] else [Clear(PathsOf(parsed)), Insert(parsed)]
  }

  /** The run of the whole code: what it does is fixed by what it meets, and it goes on until something stops it. */
  ghost predicate Carried(env: Env, s: Store, run: Run, c: Circumstances, t: Trace, log: seq<Effect>, status: Status) {
    && SweepOrder(s, run, t.order) && SweptTo(c, t.order, t.swept)
    && var swept := SweepEffects(Chunks(t.order, t.swept));
       if t.swept < ChunkCount(t.order) then status == Cancelled && log == swept
       else if ChangedFiles(env, s, run, run.entries) == [] then status == Finished && log == swept
       else if c.cancelled(BeforeParse) || c.cancelled(AfterParse) then status == Cancelled && log == swept
       else
         var parsed := Parsed(env, s, run, run.entries);
         && Greedy(env, t.batches, parsed) && StopsAt(c, t.batches, t.indexed, status)
         && log == swept + Replacing(parsed) + BatchLog(env, run, c, t.batches, t.indexed)
  }

  /** A files job: its run, and the deletions unless the run was cancelled. */
  datatype FilesTrace = FilesTrace(run: Trace, main: seq<Effect>, status: Status, order: seq<string>, n: nat)

  ghost predicate CarriedFiles(
    env: Env, s: Store, entries: seq<FileEntry>, deleted: set<string>, c: Circumstances, job: FilesTrace,
    log: seq<Effect>, status: Status)
  {
    && Carried(env, s, FilesRun(entries), c, job.run, job.main, job.status)
    && Lists(job.order, deleted)
    && if job.status == Cancelled then status == Cancelled && log == job.main
       else
         && SweptTo(c, job.order, job.n)
         && log == job.main + SweepEffects(Chunks(job.order, job.n))
         && status == if job.n == ChunkCount(job.order) then job.status else Cancelled
  }

  /** Nothing stands in the way of a run: no cancellation at any check it passes, and no unsound batch. */
  ghost predicate Undisturbed(env: Env, s: Store, run: Run, c: Circumstances, chunks: nat, batches: nat) {
    && SweptUpTo(c, chunks)
    && (ChangedFiles(env, s, run, run.entries) != [] ==>
        !c.cancelled(BeforeParse) && !c.cancelled(AfterParse) && IndexedUpTo(c, batches))
  }

  /** A run finishes exactly when it is undisturbed, over all its chunks and all its batches. */
  lemma FinishesExactly(
    env: Env, s: Store, run: Run, c: Circumstances, t: Trace, log: seq<Effect>, status: Status, batches: seq<seq<FileEntry>>)
    requires Carried(env, s, run, c, t, log, status)
    requires Greedy(env, batches, Parsed(env, s, run, run.entries))
    ensures status == Finished <==>
            Undisturbed(env, s, run, c, (if run.sweep then |Stale(s, run)| + 31 else 31) / 32, |batches|)
  {
    if t.swept == ChunkCount(t.order) && ChangedFiles(env, s, run, run.entries) != []
       && !c.cancelled(BeforeParse) && !c.cancelled(AfterParse) {
      PackedIsUnique(t.batches, batches, EntitiesOf(env), 32, 512);
    }
  }

  lemma {:induction false} AckedBatch(env: Env, run: Run, batches: seq<seq<FileEntry>>, files: seq<FileEntry>)
    ensures Ack(files) in AckEffects(env, run, batches) <==> files in batches
    decreases |batches|
  {
    if batches != [] {
      AckedBatch(env, run, batches[1..], files);
      assert batches == [batches[0]] + batches[1..];
      assert Ack(files) in BatchEffects(env, run, batches[0]) <==> files == batches[0];
    }
  }

  lemma {:induction false} SweepAcksNothing(sweeps: seq<set<string>>, files: seq<FileEntry>)
    ensures Ack(files) !in SweepEffects(sweeps)
    decreases |sweeps|
  {
    if sweeps != [] {
      SweepAcksNothing(sweeps[..|sweeps| - 1], files);
    }
  }

  /** Only sound batches are acknowledged, and none after the first cancellation or unsound batch. */
  lemma AcknowledgedWasSound(
    env: Env, s: Store, run: Run, c: Circumstances, t: Trace, log: seq<Effect>, status: Status, files: seq<FileEntry>)
    returns (b: nat)
    requires Carried(env, s, run, c, t, log, status) && Ack(files) in log
    ensures b < |t.batches| && files == t.batches[b] && IndexedUpTo(c, b + 1)
  {
    SweepAcksNothing(Chunks(t.order, t.swept), files);
    AckedBatch(env, run, t.batches[..t.indexed], files);
    b :| b < t.indexed && t.batches[b] == files;
  }

  // ---------------------------------------------------------------- deletion in bounded chunks

  function Chunk(order: seq<string>, i: nat): set<string> {
    set k | 0 <= k < |order| && INGESTION_BATCH_MAX_FILES * i <= k < INGESTION_BATCH_MAX_FILES * (i + 1) :: order[k]
  }

  function Chunks(order: seq<string>, n: nat): seq<set<string>> {
    if n == 0 then [] else Chunks(order, n - 1) + [Chunk(order, n - 1)]
  }

  function ChunkCount(order: seq<string>): nat {
    (|order| + INGESTION_BATCH_MAX_FILES - 1) / INGESTION_BATCH_MAX_FILES
  }

  lemma ChunkLeft(order: seq<string>, n: nat)
    ensures INGESTION_BATCH_MAX_FILES * n < |order| <==> n < ChunkCount(order)
  {
  }

  lemma {:induction false} ChunksAt(order: seq<string>, n: nat)
    ensures |Chunks(order, n)| == n
    ensures forall i :: 0 <= i < n ==> Chunks(order, n)[i] == Chunk(order, i)
  {
    if n > 0 {
      ChunksAt(order, n - 1);
    }
  }

  /** Chunking covers every path. */
  lemma ChunksCover(order: seq<string>, paths: set<string>)
    requires forall p :: p in paths <==> p in order
    ensures Covers(Chunks(order, ChunkCount(order)), paths)
  {
    var n := ChunkCount(order);
    ChunksAt(order, n);
    forall p | p in paths
      ensures exists i :: 0 <= i < |Chunks(order, n)| && p in Chunks(order, n)[i]
    {
      var k :| 0 <= k < |order| && order[k] == p;
      var i := k / INGESTION_BATCH_MAX_FILES;
      assert p in Chunk(order, i);
      assert Chunks(order, n)[i] == Chunk(order, i);
    }
  }

  /** No deletion transaction takes more than the bounded number of files. */
  lemma ChunkIsBounded(order: seq<string>, i: nat)
    ensures |Chunk(order, i)| <= 32
  {
    var from := INGESTION_BATCH_MAX_FILES * i;
    if from < |order| {
      var to := if from + INGESTION_BATCH_MAX_FILES <= |order| then from + INGESTION_BATCH_MAX_FILES else |order|;
      ElementsBounded(order[from..to]);
      forall p | p in Chunk(order, i)
        ensures p in Elements(order[from..to])
      {
        var k :| 0 <= k < |order| && from <= k < to && order[k] == p;
        assert order[from..to][k - from] == p;
      }
      SubsetSize(Chunk(order, i), Elements(order[from..to]));
    } else {
      assert Chunk(order, i) == {};
    }
  }

  function Elements(s: seq<string>): set<string> {
    set k | 0 <= k < |s| :: s[k]
  }

  lemma {:induction false} ElementsBounded(s: seq<string>)
    ensures |Elements(s)| <= |s|
  {
    if s != [] {
      ElementsBounded(s[1..]);
      assert Elements(s) <= Elements(s[1..]) + {s[0]} by {
        forall p | p in Elements(s)
          ensures p in Elements(s[1..]) + {s[0]}
        {
          var k :| 0 <= k < |s| && s[k] == p;
          if k > 0 {
            assert s[1..][k - 1] == p;
          }
        }
      }
      SubsetSize(Elements(s), Elements(s[1..]) + {s[0]});
    }
  }

  lemma {:induction false} SubsetSize<T>(a: set<T>, b: set<T>)
    requires a <= b
    ensures |a| <= |b|
  {
    if a != {} {
      var x :| x in a;
      SubsetSize(a - {x}, b - {x});
    }
  }

  // ---------------------------------------------------------------- prefixes of plans

  lemma {:induction false} AcksConcat(env: Env, run: Run, a: seq<seq<FileEntry>>, b: seq<seq<FileEntry>>)
    ensures AckEffects(env, run, a + b) == AckEffects(env, run, a) + AckEffects(env, run, b)
    decreases |a|
  {
    if a == [] {
      assert a + b == b;
    } else {
      assert (a + b)[1..] == a[1..] + b;
      AcksConcat(env, run, a[1..], b);
    }
  }

  lemma AcksOneMore(env: Env, run: Run, batches: seq<seq<FileEntry>>, b: nat)
    requires b < |batches|
    ensures AckEffects(env, run, batches[..b + 1]) == AckEffects(env, run, batches[..b]) + BatchEffects(env, run, batches[b])
    ensures IsPrefix(AckEffects(env, run, batches[..b + 1]), AckEffects(env, run, batches))
    ensures IsPrefix(AckEffects(env, run, batches[..b]), AckEffects(env, run, batches))
  {
    assert batches[..b + 1] == batches[..b] + [batches[b]];
    assert AckEffects(env, run, [batches[b]]) == BatchEffects(env, run, batches[b]) + AckEffects(env, run, []);
    AcksConcat(env, run, batches[..b], [batches[b]]);
    assert batches == batches[..b + 1] + batches[b + 1..] == batches[..b] + batches[b..];
    AcksConcat(env, run, batches[..b + 1], batches[b + 1..]);
    AcksConcat(env, run, batches[..b], batches[b..]);
  }

  ghost predicate IsPrefix<T>(a: seq<T>, b: seq<T>) {
    |a| <= |b| && b[..|a|] == a
  }

  lemma PrefixUnder<T>(head: seq<T>, a: seq<T>, b: seq<T>)
    requires IsPrefix(a, b)
    ensures IsPrefix(head + a, head + b)
  {
  }

  lemma {:induction false} SweepPrefix(order: seq<string>, j: nat, n: nat)
    requires j <= n
    ensures IsPrefix(SweepEffects(Chunks(order, j)), SweepEffects(Chunks(order, n)))
    decreases n
  {
    if j < n {
      SweepPrefix(order, j, n - 1);
      SweepOneMore(order, n - 1);
    }
  }

  lemma SweepOneMore(order: seq<string>, n: nat)
    ensures SweepEffects(Chunks(order, n + 1))
         == SweepEffects(Chunks(order, n)) + [Clear(Chunk(order, n)), Forget(Chunk(order, n))]
  {
    var now := Chunks(order, n + 1);
    assert now[..|now| - 1] == Chunks(order, n);
  }

  lemma SweepLogOneMore(log: seq<Effect>, order: seq<string>, n: nat)
    ensures log + SweepEffects(Chunks(order, n)) + [Clear(Chunk(order, n)), Forget(Chunk(order, n))]
         == log + SweepEffects(Chunks(order, n + 1))
  {
    SweepOneMore(order, n);
  }

  // ---------------------------------------------------------------- what the run decides to do

  function ChangedFiles(env: Env, s: Store, run: Run, entries: seq<FileEntry>): seq<FileEntry> {
    if entries == [] then []
    else
      var last := entries[|entries| - 1];
      ChangedFiles(env, s, run, entries[..|entries| - 1]) + (if Changed(env, s, run, last) then [last] else [])
  }

  function ParsedFiles(env: Env, files: seq<FileEntry>): seq<FileEntry> {
    if files == [] then []
    else
      ParsedFiles(env, files[..|files| - 1]) + (if env.parse(files[|files| - 1]).Some? then [files[|files| - 1]] else [])
  }

  lemma {:induction false} ParsedInTwoSteps(env: Env, s: Store, run: Run, entries: seq<FileEntry>)
    ensures ParsedFiles(env, ChangedFiles(env, s, run, entries)) == Parsed(env, s, run, entries)
  {
    if entries != [] {
      var init, last := entries[..|entries| - 1], entries[|entries| - 1];
      ParsedInTwoSteps(env, s, run, init);
      var files := ChangedFiles(env, s, run, init);
      if Changed(env, s, run, last) {
        var more := files + [last];
        assert more[..|more| - 1] == files && more[|more| - 1] == last;
        assert ChangedFiles(env, s, run, entries) == more;
      } else {
        assert ChangedFiles(env, s, run, entries) == files;
      }
    }
  }

  lemma {:induction false} ParsedParse(env: Env, files: seq<FileEntry>)
    ensures forall f :: f in ParsedFiles(env, files) ==> env.parse(f).Some?
  {
    if files != [] {
      ParsedParse(env, files[..|files| - 1]);
    }
  }

  function EntityCount(env: Env, f: FileEntry): nat {
    match env.parse(f)
    case Some(entities) => |entities|
    case None => 0
  }

  /** The node ids of a parsed file, by position. */
  ghost predicate Numbered(env: Env, f: FileEntry, nodeIds: map<(string, nat), NodeId>) {
    env.parse(f).Some? && NumberedUpTo(f.path, env.parse(f).value, |env.parse(f).value|, nodeIds)
  }

  ghost predicate AllNumbered(env: Env, files: seq<FileEntry>, nodeIds: map<(string, nat), NodeId>) {
    forall k :: 0 <= k < |files| ==> Numbered(env, files[k], nodeIds)
  }

  lemma PlannedSnoc(env: Env, files: seq<FileEntry>, f: FileEntry)
    ensures PlannedAll(env, files + [f]) == PlannedAll(env, files) + Planned(env, f)
    ensures VectorsAll(env, files + [f]) == VectorsAll(env, files) + Vectors(env, f)
    ensures RecordsAll(files + [f]) == RecordsAll(files)[f.path := f.hash]
  {
    assert (files + [f])[..|files|] == files;
  }

  ghost predicate NumberedUpTo(path: string, entities: seq<Entity>, n: nat, nodeIds: map<(string, nat), NodeId>)
    requires n <= |entities|
  {
    forall i: nat :: i < n ==> (path, i) in nodeIds && nodeIds[(path, i)] == NodeIdAt(path, entities, i)
  }

  /** Numbering a file leaves the numbers of other files alone. */
  ghost predicate KeepsOthers(path: string, before: map<(string, nat), NodeId>, now: map<(string, nat), NodeId>) {
    forall q, i :: (q, i) in before && q != path ==> (q, i) in now && now[(q, i)] == before[(q, i)]
  }

  lemma NumberOne(
    path: string, entities: seq<Entity>, n: nat, before: map<(string, nat), NodeId>, now: map<(string, nat), NodeId>, id: NodeId)
    requires n < |entities| && NumberedUpTo(path, entities, n, now) && KeepsOthers(path, before, now)
    requires id == NodeIdAt(path, entities, n)
    ensures NumberedUpTo(path, entities, n + 1, now[(path, n) := id]) && KeepsOthers(path, before, now[(path, n) := id])
  {
  }

  /** The counters of the symbols met so far. */
  ghost predicate Tallied(entities: seq<Entity>, n: nat, occurrences: map<(string, string), nat>)
    requires n <= |entities|
  {
    forall kind, name :: (if (kind, name) in occurrences then occurrences[(kind, name)] else 0) == Occurrence(entities, n, kind, name)
  }

  lemma TallyOne(entities: seq<Entity>, n: nat, occurrences: map<(string, string), nat>)
    requires n < |entities| && Tallied(entities, n, occurrences)
    ensures var at := (entities[n].kind, entities[n].name);
      var count := if at in occurrences then occurrences[at] else 0;
      count == Occurrence(entities, n, at.0, at.1) && Tallied(entities, n + 1, occurrences[at := count + 1])
  {
  }

  lemma PlanOne(path: string, entities: seq<Entity>, n: nat, planned: map<NodeId, Entity>, now: map<NodeId, Entity>)
    requires n < |entities| && now == planned + NodesUpTo(path, entities, n)
    ensures now[NodeIdAt(path, entities, n) := entities[n]] == planned + NodesUpTo(path, entities, n + 1)
  {
  }

  function VectorsUpTo(env: Env, path: string, entities: seq<Entity>, n: nat): map<NodeId, Vector>
    requires n <= |entities|
  {
    map id | id in NodesUpTo(path, entities, n) :: env.embed(NodesUpTo(path, entities, n)[id].text)
  }

  lemma VectorsOneMore(env: Env, path: string, entities: seq<Entity>, n: nat)
    requires n < |entities|
    ensures VectorsUpTo(env, path, entities, n + 1)
         == VectorsUpTo(env, path, entities, n)[NodeIdAt(path, entities, n) := env.embed(entities[n].text)]
  {
  }

  lemma PairOne(env: Env, path: string, entities: seq<Entity>, n: nat, pairs: map<NodeId, Vector>, now: map<NodeId, Vector>)
    requires n < |entities| && now == pairs + VectorsUpTo(env, path, entities, n)
    ensures now[NodeIdAt(path, entities, n) := env.embed(entities[n].text)] == pairs + VectorsUpTo(env, path, entities, n + 1)
  {
    VectorsOneMore(env, path, entities, n);
  }

  // ---------------------------------------------------------------- the run

  class IngestionPipeline {
    const env: Env
    var nodes: map<NodeId, Entity>
    var vectors: map<NodeId, Vector>
    var records: map<string, string>
    var marked: set<string>

    /** The store the run opened, and the durable effects since. */
    ghost const opening: Store
    ghost var log: seq<Effect>

    ghost function Contents(): Store
      reads this
    {
      Store(nodes, vectors, records, marked)
    }

    ghost predicate Valid()
      reads this
    {
      WellFormed(Contents()) && Contents() == ApplyAll(env, opening, log)
    }

    constructor (env: Env, s: Store)
      requires WellFormed(s)
      ensures Valid() && log == [] && Contents() == opening == s && this.env == env
    {
      this.env := env;
      nodes, vectors, records, marked := s.nodes, s.vectors, s.records, s.marked;
      opening, log := s, [];
    }

    /** Delete every node of some files in one transaction; the store cascades to vectors. */
    method DeleteNodes(ids: set<NodeId>, ghost paths: set<string>)
      requires Valid() && ids == set id | id in nodes && id.path in paths
      modifies this
      ensures Valid() && log == old(log) + [Clear(paths)]
      ensures records == old(records) && marked == old(marked)
    {
      if ids != {} {
        nodes := nodes - ids;
        vectors := vectors - ids;
      }
      DeletionCascades(env, old(Contents()), ids, paths);
      LogOneMore(env, opening, log, Clear(paths));
      log := log + [Clear(paths)];
    }

    method DeleteIngestionRecords(paths: set<string>)
      requires Valid()
      modifies this
      ensures Valid() && log == old(log) + [Forget(paths)]
      ensures nodes == old(nodes) && vectors == old(vectors) && marked == old(marked)
    {
      records := records - paths;
      LogOneMore(env, opening, log, Forget(paths));
      log := log + [Forget(paths)];
    }

    method DeleteChunk(order: seq<string>, offset: nat, ghost n: nat)
      requires Valid() && offset == INGESTION_BATCH_MAX_FILES * n < |order|
      modifies this
      ensures Valid() && log == old(log) + [Clear(Chunk(order, n)), Forget(Chunk(order, n))]
    {
      var end := if offset + INGESTION_BATCH_MAX_FILES <= |order| then offset + INGESTION_BATCH_MAX_FILES else |order|;
      var deletedBatch := set k | offset <= k < end :: order[k];
      assert deletedBatch == Chunk(order, n);
      var removed := set id | id in nodes && id.path in deletedBatch;
      DeleteNodes(removed, deletedBatch);
      DeleteIngestionRecords(deletedBatch);
    }

    /** Finalize deletions in bounded chunks, records only after nodes and vectors. */
    method DeletePaths(order: seq<string>, circumstances: Circumstances) returns (done: bool, n: nat)
      requires Valid()
      modifies this
      ensures Valid() && n <= ChunkCount(order)
      ensures log == old(log) + SweepEffects(Chunks(order, n))
      ensures done <==> n == ChunkCount(order)
      ensures !done ==> circumstances.cancelled(AtSweep(n))
      ensures SweptUpTo(circumstances, n)
    {
      var offset := 0;
      n := 0;
      while offset < |order|
        invariant Valid() && offset == INGESTION_BATCH_MAX_FILES * n && n <= ChunkCount(order)
        invariant log == old(log) + SweepEffects(Chunks(order, n)) && SweptUpTo(circumstances, n)
      {
        if circumstances.cancelled(AtSweep(n)) {
          ChunkLeft(order, n);
          return false, n;
        }
        DeleteChunk(order, offset, n);
        SweepLogOneMore(old(log), order, n);
        ChunkLeft(order, n);
        offset, n := offset + INGESTION_BATCH_MAX_FILES, n + 1;
      }
      ChunkLeft(order, n);
      done := true;
    }

    /** Whether a discovered file must be indexed again. */
    method SelectChanged(run: Run) returns (changed: seq<FileEntry>)
      requires Valid() && Contents() == opening
      ensures changed == ChangedFiles(env, opening, run, run.entries)
    {
      var missing := if env.semantic then set id | id in nodes && id !in vectors :: id.path else {};
      changed := [];
      var i := 0;
      while i < |run.entries|
        invariant 0 <= i <= |run.entries|
        invariant changed == ChangedFiles(env, opening, run, run.entries[..i])
      {
        var entry := run.entries[i];
        assert run.entries[..i + 1][..i] == run.entries[..i];
        if run.force || !(entry.path in records && records[entry.path] == entry.hash) || entry.path in missing {
          changed := changed + [entry];
        }
        i := i + 1;
      }
      assert run.entries[..|run.entries|] == run.entries;
    }

    method ParseFiles(changed: seq<FileEntry>) returns (parsed: seq<FileEntry>, failed: nat)
      ensures parsed == ParsedFiles(env, changed) && failed == |changed| - |parsed|
      ensures forall f :: f in parsed ==> env.parse(f).Some?
    {
      parsed, failed := [], 0;
      var i := 0;
      while i < |changed|
        invariant 0 <= i <= |changed|
        invariant parsed == ParsedFiles(env, changed[..i]) && failed == i - |parsed|
      {
        assert changed[..i + 1][..i] == changed[..i];
        if env.parse(changed[i]).Some? {
          parsed := parsed + [changed[i]];
        } else {
          failed := failed + 1;
        }
        i := i + 1;
      }
      assert changed[..|changed|] == changed;
      ParsedParse(env, changed);
    }

    /** Number the entities of one file, keeping a counter per kind and qualified name. */
    method PlanFile(f: FileEntry, entities: seq<Entity>, planned: map<NodeId, Entity>, nodeIds: map<(string, nat), NodeId>)
      returns (planned': map<NodeId, Entity>, nodeIds': map<(string, nat), NodeId>)
      requires env.parse(f) == Some(entities)
      ensures planned' == planned + Planned(env, f)
      ensures Numbered(env, f, nodeIds')
      ensures KeepsOthers(f.path, nodeIds, nodeIds')
    {
      planned', nodeIds' := planned, nodeIds;
      var occurrences: map<(string, string), nat> := map[];
      var position := 0;
      while position < |entities|
        invariant 0 <= position <= |entities|
        invariant Tallied(entities, position, occurrences)
        invariant planned' == planned + NodesUpTo(f.path, entities, position)
        invariant NumberedUpTo(f.path, entities, position, nodeIds') && KeepsOthers(f.path, nodeIds, nodeIds')
      {
        var entity := entities[position];
        var identity := (entity.kind, entity.name);
        var occurrence := if identity in occurrences then occurrences[identity] else 0;
        TallyOne(entities, position, occurrences);
        occurrences := occurrences[identity := occurrence + 1];
        var nodeId := NodeId(f.path, entity.kind, entity.name, occurrence);
        assert nodeId == NodeIdAt(f.path, entities, position);
        NumberOne(f.path, entities, position, nodeIds, nodeIds', nodeId);
        PlanOne(f.path, entities, position, planned, planned');
        planned' := planned'[nodeId := entity];
        nodeIds' := nodeIds'[(f.path, position) := nodeId];
        position := position + 1;
      }
    }

    method BuildStructuralPlan(parsed: seq<FileEntry>)
      returns (planned: map<NodeId, Entity>, nodeIds: map<(string, nat), NodeId>, replaced: set<NodeId>)
      requires DistinctPaths(parsed) && forall f :: f in parsed ==> env.parse(f).Some?
      ensures planned == PlannedAll(env, parsed) && AllNumbered(env, parsed, nodeIds)
      ensures replaced == set id | id in nodes && id.path in PathsOf(parsed)
    {
      planned, nodeIds, replaced := map[], map[], {};
      var i := 0;
      while i < |parsed|
        invariant 0 <= i <= |parsed|
        invariant planned == PlannedAll(env, parsed[..i]) && AllNumbered(env, parsed[..i], nodeIds)
        invariant replaced == set id | id in nodes && id.path in PathsOf(parsed[..i])
      {
        var item := parsed[i];
        assert parsed[..i + 1] == parsed[..i] + [item];
        PlannedSnoc(env, parsed[..i], item);
        ghost var before := nodeIds;
        planned, nodeIds := PlanFile(item, env.parse(item).value, planned, nodeIds);
        KeepsNumbering(env, parsed[..i], item, before, nodeIds);
        replaced := replaced + set id | id in nodes && id.path == item.path;
        assert PathsOf(parsed[..i + 1]) == PathsOf(parsed[..i]) + {item.path} by {
          PathsSnoc(parsed[..i], item);
        }
        i := i + 1;
      }
      assert parsed[..|parsed|] == parsed;
    }

    /** Pair the node ids of a file with the vectors of its texts. */
    method PairFile(f: FileEntry, nodeIds: map<(string, nat), NodeId>, pairs: map<NodeId, Vector>)
      returns (pairs': map<NodeId, Vector>)
      requires env.semantic && Numbered(env, f, nodeIds)
      ensures pairs' == pairs + Vectors(env, f)
    {
      var entities := env.parse(f).value;
      pairs' := pairs;
      var position := 0;
      while position < |entities|
        invariant 0 <= position <= |entities|
        invariant pairs' == pairs + VectorsUpTo(env, f.path, entities, position)
      {
        PairOne(env, f.path, entities, position, pairs, pairs');
        pairs' := pairs'[nodeIds[(f.path, position)] := env.embed(entities[position].text)];
        position := position + 1;
      }
      assert VectorsUpTo(env, f.path, entities, |entities|) == Vectors(env, f);
    }

    /** Store the vectors of a batch, unless the provider is lost. */
    method EmbedBatch(batch: seq<FileEntry>, nodeIds: map<(string, nat), NodeId>, fate: Fate) returns (ok: bool)
      requires Valid() && AllNumbered(env, batch, nodeIds)
      requires VectorsAll(env, batch).Keys <= nodes.Keys
      modifies this
      ensures Valid() && nodes == old(nodes) && records == old(records)
      ensures ok <==> !env.semantic || fate != Outage
      ensures log == old(log) + if env.semantic && ok then [Embed(batch)] else []
    {
      if !env.semantic {
        return true;
      }
      if fate == Outage {
        return false;
      }
      var pairs := PairBatch(batch, nodeIds);
      vectors := vectors + pairs;
      LogOneMore(env, opening, log, Embed(batch));
      log := log + [Embed(batch)];
      ok := true;
    }

    method PairBatch(batch: seq<FileEntry>, nodeIds: map<(string, nat), NodeId>) returns (pairs: map<NodeId, Vector>)
      requires env.semantic && AllNumbered(env, batch, nodeIds)
      ensures pairs == VectorsAll(env, batch)
    {
      pairs := map[];
      var k := 0;
      while k < |batch|
        invariant 0 <= k <= |batch| && pairs == VectorsAll(env, batch[..k])
      {
        assert batch[..k + 1] == batch[..k] + [batch[k]];
        PlannedSnoc(env, batch[..k], batch[k]);
        pairs := PairFile(batch[k], nodeIds, pairs);
        k := k + 1;
      }
      assert batch[..|batch|] == batch;
    }

    method IngestionRecords(batch: seq<FileEntry>) returns (acknowledged: map<string, string>)
      ensures acknowledged == RecordsAll(batch)
    {
      acknowledged := map[];
      var k := 0;
      while k < |batch|
        invariant 0 <= k <= |batch| && acknowledged == RecordsAll(batch[..k])
      {
        assert batch[..k + 1] == batch[..k] + [batch[k]];
        PlannedSnoc(env, batch[..k], batch[k]);
        acknowledged := acknowledged[batch[k].path := batch[k].hash];
        k := k + 1;
      }
      assert batch[..|batch|] == batch;
    }

    /** Acknowledge a batch in one transaction, then mark it in the manifest of a force job. */
    method Acknowledge(run: Run, batch: seq<FileEntry>)
      requires Valid()
      modifies this
      ensures Valid() && nodes == old(nodes)
      ensures log == old(log) + [Ack(batch)] + if run.manifest then [Mark(batch)] else []
    {
      var acknowledged := IngestionRecords(batch);
      records := records + acknowledged;
      LogOneMore(env, opening, log, Ack(batch));
      log := log + [Ack(batch)];
      if run.manifest {
        marked := marked + PathsOf(batch);
        LogOneMore(env, opening, log, Mark(batch));
        log := log + [Mark(batch)];
      }
    }

    method CompleteFileBatches(parsed: seq<FileEntry>) returns (batches: seq<seq<FileEntry>>)
      ensures Greedy(env, batches, parsed)
    {
      batches := PlanBatches(parsed, EntitiesOf(env));
    }

    /** One batch: embed, look at the sources again, and only then acknowledge. */
    method IndexBatch(run: Run, batch: seq<FileEntry>, nodeIds: map<(string, nat), NodeId>, fate: Fate)
      returns (ok: bool, ghost issued: seq<Effect>)
      requires Valid() && AllNumbered(env, batch, nodeIds)
      requires VectorsAll(env, batch).Keys <= nodes.Keys
      modifies this
      ensures Valid() && log == old(log) + issued && nodes == old(nodes)
      ensures ok <==> fate == Sound
      ensures issued == if ok then BatchEffects(env, run, batch) else Unacknowledged(env, batch, fate)
    {
      ghost var start := log;
      var embedded := EmbedBatch(batch, nodeIds, fate);
      issued := if env.semantic && embedded then [Embed(batch)] else [];
      if !embedded || fate != Sound {
        return false, issued;
      }
      Acknowledge(run, batch);
      BatchIssued(env, run, batch, start);
      issued := BatchEffects(env, run, batch);
      ok := true;
    }

    /** Embed and acknowledge complete-file batches until a cancellation or an unsound batch stops the run. */
    method IndexBatches(run: Run, parsed: seq<FileEntry>, nodeIds: map<(string, nat), NodeId>, circumstances: Circumstances)
      returns (status: Status, failed: nat, ghost batches: seq<seq<FileEntry>>, ghost indexed: nat, ghost issued: seq<Effect>)
      requires Valid() && AllNumbered(env, parsed, nodeIds) && DistinctPaths(parsed)
      requires PlannedAll(env, parsed).Keys <= nodes.Keys
      modifies this
      ensures Valid() && log == old(log) + issued
      ensures Greedy(env, batches, parsed)
      ensures StopsAt(circumstances, batches, indexed, status)
      ensures issued == BatchLog(env, run, circumstances, batches, indexed)
      ensures failed == if status == Degraded then |batches[indexed]| else 0
    {
      var planned := CompleteFileBatches(parsed);
      batches := planned;
      ghost var start := log;
      var b := 0;
      issued := [];
      status := Finished;
      NoneIssued(env, run, planned);
      while b < |planned|
        invariant 0 <= b <= |planned| && Valid() && status == Finished
        invariant Issued(env, run, planned, b, issued) && log == start + issued
        invariant nodes == old(nodes) && IndexedUpTo(circumstances, b)
      {
        status, issued := BatchRound(run, parsed, planned, b, nodeIds, circumstances, start, issued);
        if status != Finished {
          break;
        }
        b := b + 1;
      }
      indexed := b;
      failed := if status == Degraded then |planned[b]| else 0;
    }

    /** Notice a cancellation before a batch, or index it. */
    method BatchRound(
      run: Run, ghost parsed: seq<FileEntry>, batches: seq<seq<FileEntry>>, b: nat, nodeIds: map<(string, nat), NodeId>,
      circumstances: Circumstances, ghost start: seq<Effect>, ghost issued: seq<Effect>)
      returns (status: Status, ghost issued': seq<Effect>)
      requires Valid() && AllNumbered(env, parsed, nodeIds) && DistinctPaths(parsed)
      requires PlannedAll(env, parsed).Keys <= nodes.Keys
      requires b < |batches| && Join(batches) == parsed
      requires log == start + issued && Issued(env, run, batches, b, issued)
      modifies this
      ensures Valid() && log == start + issued' && nodes == old(nodes)
      ensures status == RoundStatus(circumstances, b)
      ensures status == Finished ==> Issued(env, run, batches, b + 1, issued')
      ensures status != Finished ==> issued' == BatchLog(env, run, circumstances, batches, b)
    {
      if circumstances.cancelled(AtBatch(b)) {
        CancelledLog(env, run, circumstances, batches, b);
        return Cancelled, issued;
      }
      BatchWithin(env, parsed, batches, b, nodeIds);
      var ok;
      ghost var step;
      ok, step := IndexBatch(run, batches[b], nodeIds, circumstances.fate(b));
      RoundIssued(env, run, batches, b, start, issued, step, ok, circumstances);
      issued' := issued + step;
      status := if ok then Finished else Degraded;
    }

    /** Remove what was indexed but is no longer discovered. */
    method Sweep(run: Run, circumstances: Circumstances) returns (done: bool, deleted: nat, ghost order: seq<string>, ghost n: nat)
      requires Valid() && log == [] && Contents() == opening
      modifies this
      ensures Valid()
      ensures SweepOrder(opening, run, order) && SweptTo(circumstances, order, n)
      ensures done <==> n == ChunkCount(order)
      ensures log == SweepEffects(Chunks(order, n))
      ensures deleted == |order|
    {
      var stale := if run.sweep then (set id | id in nodes :: id.path) + records.Keys - PathsOf(run.entries) else {};
      var listed := Listed(stale);
      order := listed;
      done, n := DeletePaths(listed, circumstances);
      deleted := |listed|;
    }

    /**
    Whatever ends a run, its durable effects are a prefix of one of its plans, and all of it when it finished.  It is
    ended by the first cancellation and the first unsound batch it meets, and by nothing else.
    */
    method IngestEntries(run: Run, circumstances: Circumstances) returns (result: IngestionResult, ghost trace: Trace)
      requires Valid() && log == [] && Contents() == opening && DistinctPaths(run.entries)
      modifies this
      ensures Valid()
      ensures Follows(env, opening, run, log, result.status)
      ensures Carried(env, opening, run, circumstances, trace, log, result.status)
      ensures result.changed == |ChangedFiles(env, opening, run, run.entries)|
      ensures result.status == Finished ==> result.failed == result.changed - |Parsed(env, opening, run, run.entries)|
      ensures result.status == Degraded ==> trace.indexed < |trace.batches|
      ensures result.status == Degraded ==>
        result.failed == result.changed - |Parsed(env, opening, run, run.entries)| + |trace.batches[trace.indexed]|
      ensures result.status != Cancelled ==> result.deleted == if run.sweep then |Stale(opening, run)| else 0
    {
      var changed := SelectChanged(run);
      ParsedInTwoSteps(env, opening, run, run.entries);
      var swept, deleted;
      ghost var order, n;
      swept, deleted, order, n := Sweep(run, circumstances);
      trace := Trace(order, n, [], 0);
      SweepFollows(env, opening, run, order, n);
      if !swept {
        return IngestionResult(Cancelled, |changed|, 0, 0), trace;
      }
      if changed == [] {
        FinishedWithoutChange(env, opening, run, Chunks(order, n));
        return IngestionResult(Finished, 0, deleted, 0), trace;
      }
      if circumstances.cancelled(BeforeParse) {
        return IngestionResult(Cancelled, |changed|, deleted, 0), trace;
      }
      var parsed, unparsed := ParseFiles(changed);
      if circumstances.cancelled(AfterParse) {
        return IngestionResult(Cancelled, |changed|, deleted, unparsed), trace;
      }
      ParsedDistinct(env, opening, run, run.entries);
      var status, failed;
      status, failed, trace := ReplaceAndIndex(run, parsed, order, circumstances);
      result := IngestionResult(status, |changed|, deleted, unparsed + failed);
    }

    /** Index changed files, then apply explicit deletions; an outage does not keep the deletions from being applied. */
    method IngestFiles(entries: seq<FileEntry>, deleted: set<string>, circumstances: Circumstances)
      returns (result: IngestionResult, ghost job: FilesTrace)
      requires Valid() && log == [] && Contents() == opening && DistinctPaths(entries)
      modifies this
      ensures Valid()
      ensures PartOfJob(env, opening, entries, deleted, log)
      ensures result.status == Finished ==> IsFilesPlan(env, opening, entries, deleted, log)
      ensures CarriedFiles(env, opening, entries, deleted, circumstances, job, log, result.status)
      ensures result.changed == |ChangedFiles(env, opening, FilesRun(entries), entries)|
      ensures result.status != Cancelled ==> result.deleted == |deleted|
      ensures result.status == Finished ==> result.failed == result.changed - |Parsed(env, opening, FilesRun(entries), entries)|
      ensures result.status == Degraded ==> job.run.indexed < |job.run.batches|
      ensures result.status == Degraded ==>
        result.failed == result.changed - |Parsed(env, opening, FilesRun(entries), entries)| + |job.run.batches[job.run.indexed]|
    {
      ghost var trace;
      result, trace := IngestEntries(FilesRun(entries), circumstances);
      ghost var main := log;
      var order := Listed(deleted);
      job := FilesTrace(trace, main, result.status, order, 0);
      ChunksCover(order, deleted);
      ghost var sweeps := Chunks(order, ChunkCount(order));
      if result.status == Cancelled {
        assert main + [] == main;
        FollowsPart(env, opening, entries, deleted, main, result.status, sweeps, []);
        return;
      }
      var done, n := DeletePaths(order, circumstances);
      job := job.(n := n);
      SweepPrefix(order, n, ChunkCount(order));
      FollowsPart(env, opening, entries, deleted, main, result.status, sweeps, SweepEffects(Chunks(order, n)));
      result := if done then result.(deleted := result.deleted + |order|) else result.(status := Cancelled);
    }

    /** The part of a run after its last look at the sources: replace the subgraph, then index the batches. */
    method ReplaceAndIndex(run: Run, parsed: seq<FileEntry>, ghost order: seq<string>, circumstances: Circumstances)
      returns (status: Status, failed: nat, ghost trace: Trace)
      requires Valid() && SweepOrder(opening, run, order) && SweptTo(circumstances, order, ChunkCount(order))
      requires log == SweepEffects(Chunks(order, ChunkCount(order)))
      requires parsed == Parsed(env, opening, run, run.entries) && DistinctPaths(parsed)
      requires forall f :: f in parsed ==> env.parse(f).Some?
      requires ChangedFiles(env, opening, run, run.entries) != []
      requires !circumstances.cancelled(BeforeParse) && !circumstances.cancelled(AfterParse)
      modifies this
      ensures Valid()
      ensures Follows(env, opening, run, log, status)
      ensures Carried(env, opening, run, circumstances, trace, log, status)
      ensures status == Finished ==> failed == 0
      ensures status == Degraded ==> trace.indexed < |trace.batches| && failed == |trace.batches[trace.indexed]|
    {
      var planned, nodeIds, replaced := BuildStructuralPlan(parsed);
      if parsed != [] {
        DeleteNodes(replaced, PathsOf(parsed));
        InsertNodes(parsed, planned);
      }
      ghost var swept := SweepEffects(Chunks(order, ChunkCount(order)));
      assert log == swept + Replacing(parsed);
      ghost var batches, indexed, issued;
      status, failed, batches, indexed, issued := IndexBatches(run, parsed, nodeIds, circumstances);
      trace := Trace(order, ChunkCount(order), batches, indexed);
      CarriedFollows(env, opening, run, circumstances, trace, log, status);
    }

    method InsertNodes(parsed: seq<FileEntry>, planned: map<NodeId, Entity>)
      requires Valid() && planned == PlannedAll(env, parsed)
      modifies this
      ensures Valid() && log == old(log) + [Insert(parsed)]
      ensures nodes == old(nodes) + planned
    {
      nodes := nodes + planned;
      LogOneMore(env, opening, log, Insert(parsed));
      log := log + [Insert(parsed)];
    }
  }

  method Listed(paths: set<string>) returns (order: seq<string>)
    ensures forall p :: p in paths <==> p in order
    ensures |order| == |paths|
  {
    var rest := paths;
    order := [];
    while rest != {}
      invariant rest <= paths && |order| + |rest| == |paths|
      invariant forall p :: p in paths <==> p in order || p in rest
      decreases |rest|
    {
      var p :| p in rest;
      rest := rest - {p};
      order := order + [p];
    }
  }

  // ---------------------------------------------------------------- where a run can stop

  /** The log of a run is a prefix of one of its plans, and the whole plan when the run finished. */
  ghost predicate Follows(env: Env, s: Store, run: Run, log: seq<Effect>, status: Status) {
    exists plan :: IsPlan(env, s, run, plan) && IsPrefix(log, plan) && (status == Finished ==> log == plan)
  }

  /** The log of a files job is part of an incremental run and then part of its deletions. */
  lemma FollowsPart(
    env: Env, s: Store, entries: seq<FileEntry>, deleted: set<string>, main: seq<Effect>, status: Status,
    sweeps: seq<set<string>>, swept: seq<Effect>)
    requires Follows(env, s, FilesRun(entries), main, status)
    requires Pipeline.Covers(sweeps, deleted) && IsPrefix(swept, SweepEffects(sweeps))
    ensures PartOfJob(env, s, entries, deleted, main + swept)
    ensures status == Finished && swept == SweepEffects(sweeps) ==> IsFilesPlan(env, s, entries, deleted, main + swept)
  {
    var plan :| IsPlan(env, s, FilesRun(entries), plan) && IsPrefix(main, plan);
    assert IsPart(env, s, entries, deleted, plan, |main|, sweeps, |swept|);
    assert main == plan[..|main|] && swept == SweepEffects(sweeps)[..|swept|];
  }

  lemma {:induction false} BatchIsSlice<T>(batches: seq<seq<T>>, b: nat) returns (from: nat)
    requires b < |batches|
    ensures from + |batches[b]| <= |Join(batches)| && Join(batches)[from..from + |batches[b]|] == batches[b]
    decreases |batches|
  {
    var head, rest := batches[0], Join(batches[1..]);
    if b == 0 {
      from := 0;
      assert Join(batches)[0..|head|] == head;
    } else {
      var inner := BatchIsSlice(batches[1..], b - 1);
      from := |head| + inner;
      assert Join(batches)[from..from + |batches[b]|] == rest[inner..inner + |batches[b]|];
    }
  }

  lemma BatchWithin(env: Env, parsed: seq<FileEntry>, batches: seq<seq<FileEntry>>, b: nat, nodeIds: map<(string, nat), NodeId>)
    requires b < |batches| && Join(batches) == parsed && DistinctPaths(parsed) && AllNumbered(env, parsed, nodeIds)
    ensures AllNumbered(env, batches[b], nodeIds)
    ensures VectorsAll(env, batches[b]).Keys <= PlannedAll(env, parsed).Keys
  {
    var batch := batches[b];
    var from := BatchIsSlice(batches, b);
    assert forall k :: 0 <= k < |batch| ==> batch[k] == parsed[from + k];
    forall k | 0 <= k < |batch|
      ensures Numbered(env, batch[k], nodeIds)
    {
      assert Numbered(env, parsed[from + k], nodeIds);
    }
    forall id | id in VectorsAll(env, batch)
      ensures id in PlannedAll(env, parsed)
    {
      VectorsAllAt(env, batch, id);
      PlannedAllAt(env, parsed, id);
      var f := FileOf(batch, id.path).value;
      var k :| 0 <= k < |batch| && batch[k] == f;
      FileOfUnique(parsed, parsed[from + k]);
    }
  }

  /** The effects of the first batches. */
  ghost predicate Issued(env: Env, run: Run, batches: seq<seq<FileEntry>>, b: nat, issued: seq<Effect>)
    requires b <= |batches|
  {
    issued == AckEffects(env, run, batches[..b]) && IsPrefix(issued, AckEffects(env, run, batches))
  }

  lemma NoneIssued(env: Env, run: Run, batches: seq<seq<FileEntry>>)
    ensures Issued(env, run, batches, 0, [])
  {
  }

  lemma IssuedOneMore(env: Env, run: Run, batches: seq<seq<FileEntry>>, b: nat, issued: seq<Effect>)
    requires b < |batches| && Issued(env, run, batches, b, issued)
    ensures Issued(env, run, batches, b + 1, issued + BatchEffects(env, run, batches[b]))
  {
    AcksOneMore(env, run, batches, b);
  }

  lemma BatchBegun(env: Env, run: Run, batches: seq<seq<FileEntry>>, b: nat, issued: seq<Effect>, step: seq<Effect>)
    requires b < |batches| && Issued(env, run, batches, b, issued)
    requires step == [] || (env.semantic && step == [Embed(batches[b])])
    ensures IsPrefix(issued + step, AckEffects(env, run, batches))
  {
    AcksOneMore(env, run, batches, b);
    assert IsPrefix(step, BatchEffects(env, run, batches[b]));
    PrefixUnder(issued, step, BatchEffects(env, run, batches[b]));
    PrefixTransitive(issued + step, AckEffects(env, run, batches[..b + 1]), AckEffects(env, run, batches));
  }

  lemma RoundIssued(
    env: Env, run: Run, batches: seq<seq<FileEntry>>, b: nat, start: seq<Effect>, issued: seq<Effect>, step: seq<Effect>, ok: bool,
    c: Circumstances)
    requires b < |batches| && Issued(env, run, batches, b, issued)
    requires !c.cancelled(AtBatch(b)) && (ok <==> c.fate(b) == Sound)
    requires step == if ok then BatchEffects(env, run, batches[b]) else Unacknowledged(env, batches[b], c.fate(b))
    ensures start + issued + step == start + (issued + step)
    ensures ok ==> Issued(env, run, batches, b + 1, issued + step)
    ensures !ok ==> issued + step == BatchLog(env, run, c, batches, b)
  {
    if ok {
      IssuedOneMore(env, run, batches, b, issued);
    }
  }

  lemma BatchIssued(env: Env, run: Run, batch: seq<FileEntry>, start: seq<Effect>)
    ensures start + (if env.semantic then [Embed(batch)] else []) + [Ack(batch)] + (if run.manifest then [Mark(batch)] else [])
         == start + BatchEffects(env, run, batch)
  {
  }

  lemma CancelledLog(env: Env, run: Run, c: Circumstances, batches: seq<seq<FileEntry>>, b: nat)
    requires b < |batches| && c.cancelled(AtBatch(b))
    ensures BatchLog(env, run, c, batches, b) == AckEffects(env, run, batches[..b])
  {
  }

  lemma BatchLogIsPrefix(env: Env, run: Run, c: Circumstances, batches: seq<seq<FileEntry>>, b: nat)
    requires b <= |batches|
    ensures IsPrefix(BatchLog(env, run, c, batches, b), AckEffects(env, run, batches))
    ensures b == |batches| ==> BatchLog(env, run, c, batches, b) == AckEffects(env, run, batches)
  {
    if b == |batches| {
      assert batches[..b] == batches;
    } else {
      AcksOneMore(env, run, batches, b);
      var issued := AckEffects(env, run, batches[..b]);
      var step := if c.cancelled(AtBatch(b)) then [] else Unacknowledged(env, batches[b], c.fate(b));
      assert Issued(env, run, batches, b, issued);
      BatchBegun(env, run, batches, b, issued, step);
    }
  }

  lemma PrefixTransitive<T>(a: seq<T>, b: seq<T>, c: seq<T>)
    requires IsPrefix(a, b) && IsPrefix(b, c)
    ensures IsPrefix(a, c)
  {
    assert c[..|a|] == b[..|a|];
  }

  lemma PlanFor(env: Env, s: Store, run: Run, sweeps: seq<set<string>>, batches: seq<seq<FileEntry>>)
    requires Pipeline.Covers(sweeps, if run.sweep then Stale(s, run) else {})
    requires Join(batches) == Parsed(env, s, run, run.entries)
    ensures IsPlan(env, s, run, PlanOf(env, s, run, sweeps, batches))
  {
  }

  lemma StoppedInSweep(env: Env, s: Store, run: Run, sweeps: seq<set<string>>, log: seq<Effect>)
    requires Pipeline.Covers(sweeps, if run.sweep then Stale(s, run) else {}) && IsPrefix(log, SweepEffects(sweeps))
    ensures Follows(env, s, run, log, Cancelled)
  {
    var parsed := Parsed(env, s, run, run.entries);
    assert Join([parsed]) == parsed + Join([]);
    PlanFor(env, s, run, sweeps, [parsed]);
    assert IsPrefix(log, PlanOf(env, s, run, sweeps, [parsed]));
  }

  lemma FinishedWithoutChange(env: Env, s: Store, run: Run, sweeps: seq<set<string>>)
    requires Pipeline.Covers(sweeps, if run.sweep then Stale(s, run) else {}) && Parsed(env, s, run, run.entries) == []
    ensures Follows(env, s, run, SweepEffects(sweeps), Finished)
  {
    PlanFor(env, s, run, sweeps, []);
    assert PlanOf(env, s, run, sweeps, []) == SweepEffects(sweeps);
  }

  lemma SweepFollows(env: Env, s: Store, run: Run, order: seq<string>, n: nat)
    requires SweepOrder(s, run, order) && n <= ChunkCount(order)
    ensures Follows(env, s, run, SweepEffects(Chunks(order, n)), Cancelled)
    ensures Pipeline.Covers(Chunks(order, ChunkCount(order)), if run.sweep then Stale(s, run) else {})
  {
    ChunksCover(order, if run.sweep then Stale(s, run) else {});
    SweepPrefix(order, n, ChunkCount(order));
    StoppedInSweep(env, s, run, Chunks(order, ChunkCount(order)), SweepEffects(Chunks(order, n)));
  }

  /** A run that reaches its batches follows a plan. */
  lemma CarriedFollows(env: Env, s: Store, run: Run, c: Circumstances, t: Trace, log: seq<Effect>, status: Status)
    requires SweepOrder(s, run, t.order) && t.swept == ChunkCount(t.order)
    requires Join(t.batches) == Parsed(env, s, run, run.entries) && StopsAt(c, t.batches, t.indexed, status)
    requires log == SweepEffects(Chunks(t.order, t.swept)) + Replacing(Parsed(env, s, run, run.entries))
                    + BatchLog(env, run, c, t.batches, t.indexed)
    ensures Follows(env, s, run, log, status)
  {
    var sweeps, issued := Chunks(t.order, t.swept), BatchLog(env, run, c, t.batches, t.indexed);
    var head := SweepEffects(sweeps) + Replacing(Parsed(env, s, run, run.entries));
    SweepFollows(env, s, run, t.order, t.swept);
    PlanFor(env, s, run, sweeps, t.batches);
    BatchLogIsPrefix(env, run, c, t.batches, t.indexed);
    PrefixUnder(head, issued, AckEffects(env, run, t.batches));
    assert PlanOf(env, s, run, sweeps, t.batches) == head + AckEffects(env, run, t.batches);
  }

  lemma LogOneMore(env: Env, opening: Store, log: seq<Effect>, e: Effect)
    ensures ApplyAll(env, opening, log + [e]) == Apply(env, ApplyAll(env, opening, log), e)
  {
    assert (log + [e])[..|log|] == log;
  }

  lemma DeletionCascades(env: Env, s: Store, ids: set<NodeId>, paths: set<string>)
    requires WellFormed(s) && ids == set id | id in s.nodes && id.path in paths
    ensures Apply(env, s, Clear(paths)) == s.(nodes := s.nodes - ids, vectors := s.vectors - ids)
  {
    var after := Apply(env, s, Clear(paths));
    assert after.nodes == s.nodes - ids;
    assert after.vectors == s.vectors - ids;
  }

  lemma PathsSnoc(files: seq<FileEntry>, f: FileEntry)
    ensures PathsOf(files + [f]) == PathsOf(files) + {f.path}
  {
    var all := files + [f];
    assert all[|files|] == f;
    assert forall i :: 0 <= i < |files| ==> all[i] == files[i];
  }

  lemma KeepsNumbering(env: Env, files: seq<FileEntry>, f: FileEntry, before: map<(string, nat), NodeId>, now: map<(string, nat), NodeId>)
    requires DistinctPaths(files + [f]) && AllNumbered(env, files, before) && Numbered(env, f, now)
    requires KeepsOthers(f.path, before, now)
    ensures AllNumbered(env, files + [f], now)
  {
    var all := files + [f];
    forall k | 0 <= k < |all|
      ensures Numbered(env, all[k], now)
    {
      if k < |files| {
        assert all[k] == files[k] && all[|files|] == f;
        assert Numbered(env, files[k], before);
      }
    }
  }

  lemma OneStop(env: Env, s: Store, run: Run, plan: seq<Effect>, j: nat)
    requires IsPlan(env, s, run, plan) && j <= |plan|
    ensures Stops(env, s, run, [(plan, j)], ApplyAll(env, s, plan[..j]))
  {
    var cuts := [(plan, j)];
    assert cuts[1..] == [];
  }

  /**
  Two executions of this code: the first crashed after any of its durable effects, the second finished.
  They leave what one undisturbed execution leaves.
  */
  lemma CrashedRunConverges(
    env: Env, s: Store, run: Run, log: seq<Effect>, status: Status, j: nat, again: seq<Effect>, undisturbed: seq<Effect>)
    requires ProperRun(run) && !run.manifest && FineStore(env, s, run)
    requires Follows(env, s, run, log, status) && j <= |log|
    requires Follows(env, ApplyAll(env, s, log[..j]), run, again, Finished)
    requires Follows(env, s, run, undisturbed, Finished)
    ensures ApplyAll(env, ApplyAll(env, s, log[..j]), again) == ApplyAll(env, s, undisturbed)
  {
    var plan := PlanBehind(env, s, run, log, status, j);
    OneStop(env, s, run, plan, j);
    CrashReplayConverges(env, s, run, undisturbed, [(plan, j)], ApplyAll(env, s, plan[..j]), again);
  }

  lemma PlanBehind(env: Env, s: Store, run: Run, log: seq<Effect>, status: Status, j: nat) returns (plan: seq<Effect>)
    requires Follows(env, s, run, log, status) && j <= |log|
    ensures IsPlan(env, s, run, plan) && j <= |plan| && plan[..j] == log[..j]
  {
    plan :| IsPlan(env, s, run, plan) && IsPrefix(log, plan);
  }

  /**
  The same for a job of changed and deleted files: an execution that a crash cuts short after any of its durable
  effects, however it went before, and then one that finishes, leave what one undisturbed execution leaves.
  */
  lemma CrashedFilesJobConverges(
    env: Env, s: Store, entries: seq<FileEntry>, deleted: set<string>, log: seq<Effect>, j: nat,
    again: seq<Effect>, undisturbed: seq<Effect>)
    requires WellFormed(s) && DistinctPaths(entries) && Retryable(env, s, entries, deleted)
    requires PartOfJob(env, s, entries, deleted, log) && j <= |log|
    requires IsFilesPlan(env, ApplyAll(env, s, log[..j]), entries, deleted, again)
    requires IsFilesPlan(env, s, entries, deleted, undisturbed)
    ensures ApplyAll(env, ApplyAll(env, s, log[..j]), again) == ApplyAll(env, s, undisturbed)
  {
    PartOfPart(env, s, entries, deleted, log, j);
    OneExecution(env, s, entries, deleted, log[..j]);
    FilesJobConverges(env, s, entries, deleted, undisturbed, [log[..j]], ApplyAll(env, s, log[..j]), again);
  }
}
