/**
Project stores on disk and in the catalog (src/scs/storage/registry.py, src/scs/storage/catalog.py):
enrolment, generation bindings and the crash-safe deletion of a repository.

A durable operation is a plan, a sequence of steps each of which is atomic; a crash leaves the state
reached by some prefix of the plan.
*/
module Registry {
  import opened Outcome

  /** The lifecycle states this subsystem writes. */
  datatype StoreState = Uninitialized | SemanticStale | SemanticReady

  datatype Record = Record(storeId: string, generation: Option<string>, state: StoreState)

  /** A live store directory: the generations that have a database, and whether the graph still holds content. */
  datatype Live = Live(databases: set<string>, indexed: bool)

  /** A retired store directory, named after the store and the deletion that retired it. */
  datatype Tomb = Tomb(storeId: string, deletion: nat)

  datatype Home = Home(catalog: map<string, Record>, live: map<string, Live>, tombs: set<Tomb>)

  datatype Binding = Binding(storeId: string, generation: string)

  /** The store identity derived from a repository root; a digest in the source, injective here as there. */
  function StoreIdForRoot(root: string): string {
    "sha256:" + root
  }

  lemma StoreIdInjective(a: string, b: string)
    requires StoreIdForRoot(a) == StoreIdForRoot(b)
    ensures a == b
  {
    assert a == StoreIdForRoot(a)[7..] && b == StoreIdForRoot(b)[7..];
  }

  // ---------------------------------------------------------------- catalog and bindings

  datatype StoreError = StaleBinding | GraphMissing | NotRegistered | CannotOpen

  /** Whether a queued job's recorded store may still be opened. */
  function GraphForBinding(h: Home, root: string, b: Binding): Result<(), StoreError> {
    if root !in h.catalog || h.catalog[root].generation.None?
       || b != Binding(h.catalog[root].storeId, h.catalog[root].generation.value) then Err(StaleBinding)
    else if b.storeId !in h.live || b.generation !in h.live[b.storeId].databases then Err(GraphMissing)
    else Ok(())
  }

  /** Compare-and-set on the generation: only its own job may move a store's state. */
  function UpdateState(h: Home, root: string, expected: string, state: StoreState): Result<Home, StoreError> {
    if root in h.catalog && h.catalog[root].generation == Some(expected)
    then Ok(h.(catalog := h.catalog[root := h.catalog[root].(state := state)]))
    else Err(StaleBinding)
  }

  // ---------------------------------------------------------------- enrolment

  datatype EnrolStep =
    | RegisterRoot(root: string)
    | CreateStore(storeId: string)
    | CreateDatabase(storeId: string, generation: string)
    | Activate(root: string, generation: string)

  function AddDatabase(h: Home, storeId: string, generation: string): Home {
    var before := if storeId in h.live then h.live[storeId] else Live({}, false);
    h.(live := h.live[storeId := Live(before.databases + {generation}, before.indexed)])
  }

  function ApplyEnrol(h: Home, s: EnrolStep): Home {
    match s
    case RegisterRoot(root) =>
      if root in h.catalog then h
      else h.(catalog := h.catalog[root := Record(StoreIdForRoot(root), None, Uninitialized)])
    case CreateStore(id) => if id in h.live then h else h.(live := h.live[id := Live({}, false)])
    case CreateDatabase(id, generation) => AddDatabase(h, id, generation)
    case Activate(root, generation) =>
      if root in h.catalog
      then h.(catalog := h.catalog[root := h.catalog[root].(generation := Some(generation), state := SemanticStale)])
      else h
  }

  /** The durable steps of an explicit index request; an activated store is only opened. */
  function EnrolPlan(h: Home, root: string, gen: string): seq<EnrolStep> {
    var id := StoreIdForRoot(root);
    if root in h.catalog && h.catalog[root].generation.Some? then []
    else [RegisterRoot(root), CreateStore(id), CreateDatabase(id, gen), Activate(root, gen)]
  }

  function ApplyEnrols(h: Home, steps: seq<EnrolStep>): Home
    decreases |steps|
  {
    if steps == [] then h else ApplyEnrols(ApplyEnrol(h, steps[0]), steps[1..])
  }

  // ---------------------------------------------------------------- deletion

  /** What a deletion job carries: the repository, the binding it was enqueued with, and its own id. */
  datatype Deletion = Deletion(root: string, storeId: string, generation: Option<string>, job: nat) {
    function OwnTomb(): Tomb { Tomb(storeId, job) }
  }

  predicate Matches(h: Home, d: Deletion) {
    d.root in h.catalog && h.catalog[d.root].storeId == d.storeId && h.catalog[d.root].generation == d.generation
  }

  /** The catalog already holds another binding for the root. */
  predicate Superseded(h: Home, d: Deletion) {
    d.root in h.catalog && !Matches(h, d)
  }

  predicate MustRetire(h: Home, d: Deletion) {
    d.OwnTomb() !in h.tombs && d.storeId in h.live
  }

  /** The graph must be opened before the store is retired, but its database file is gone. */
  predicate Blocked(h: Home, d: Deletion) {
    MustRetire(h, d) && Matches(h, d) && d.generation.Some? && d.generation.value !in h.live[d.storeId].databases
  }

  datatype DropStep =
    | EraseGraph
    | Retire
    | Unregister
    | RemoveTomb(tomb: Tomb)

  function ApplyDrop(h: Home, d: Deletion, s: DropStep): Home {
    match s
    case EraseGraph => if d.storeId in h.live then h.(live := h.live[d.storeId := h.live[d.storeId].(indexed := false)]) else h
    case Retire => h.(live := h.live - {d.storeId}, tombs := h.tombs + {d.OwnTomb()})
    case Unregister => if Matches(h, d) then h.(catalog := h.catalog - {d.root}) else h
    case RemoveTomb(tomb) => h.(tombs := h.tombs - {tomb})
  }

  function ApplyDrops(h: Home, d: Deletion, steps: seq<DropStep>): Home
    decreases |steps|
  {
    if steps == [] then h else ApplyDrops(ApplyDrop(h, d, steps[0]), d, steps[1..])
  }

  function Removals(order: seq<Tomb>): seq<DropStep> {
    seq(|order|, i requires 0 <= i < |order| => RemoveTomb(order[i]))
  }

  /** The tombstones of a store that are on disk once it has been retired. */
  function RetiredBy(h: Home, d: Deletion): set<Tomb> {
    set t | t in h.tombs + (if !Superseded(h, d) && MustRetire(h, d) then {d.OwnTomb()} else {}) && t.storeId == d.storeId
  }

  ghost predicate Enumerates(order: seq<Tomb>, tombs: set<Tomb>) {
    && (forall i, j :: 0 <= i < j < |order| ==> order[i] != order[j])
    && (forall t :: t in order <==> t in tombs)
  }

  function Head(h: Home, d: Deletion): seq<DropStep> {
    if Superseded(h, d) then []
    else
      (if !MustRetire(h, d) then []
       else if Matches(h, d) && d.generation.Some? then [EraseGraph, Retire]
       else [Retire])
      + (if Matches(h, d) then [Unregister] else [])
  }

  /** The durable steps of one complete deletion; tombstones are removed in any order. */
  function DropPlan(h: Home, d: Deletion, order: seq<Tomb>): seq<DropStep> {
    Head(h, d) + Removals(order)
  }

  // ---------------------------------------------------------------- one deletion, all crashes

  /** Nothing of the repository remains and nothing else has changed. */
  function Forgotten(h: Home, d: Deletion): Home {
    Home(
      if Matches(h, d) then h.catalog - {d.root} else h.catalog,
      h.live - {d.storeId},
      set t | t in h.tombs && t.storeId != d.storeId)
  }

  /** A deletion that may run to its end: it owns the binding, and its store was not rebuilt after it was retired. */
  predicate Runnable(h: Home, d: Deletion) {
    !Superseded(h, d) && !Blocked(h, d) && !(d.OwnTomb() in h.tombs && d.storeId in h.live)
  }

  /** A step that is due in a state: the store is retired before the record goes, and the record before the tombstones. */
  predicate Due(h: Home, d: Deletion, s: DropStep) {
    match s
    case EraseGraph => MustRetire(h, d)
    case Retire => MustRetire(h, d)
    case Unregister => Matches(h, d) && d.storeId !in h.live
    case RemoveTomb(tomb) => tomb.storeId == d.storeId && d.storeId !in h.live && !Matches(h, d)
  }

  lemma DueStep(h: Home, d: Deletion, s: DropStep)
    requires Runnable(h, d) && Due(h, d, s)
    ensures Runnable(ApplyDrop(h, d, s), d)
    ensures Forgotten(ApplyDrop(h, d, s), d) == Forgotten(h, d)
  {
  }

  predicate AllDue(h: Home, d: Deletion, steps: seq<DropStep>)
    decreases |steps|
  {
    steps == [] || (Due(h, d, steps[0]) && AllDue(ApplyDrop(h, d, steps[0]), d, steps[1..]))
  }

  lemma {:induction false} DuePrefix(h: Home, d: Deletion, steps: seq<DropStep>, k: nat)
    requires Runnable(h, d) && AllDue(h, d, steps) && k <= |steps|
    ensures Runnable(ApplyDrops(h, d, steps[..k]), d)
    ensures Forgotten(ApplyDrops(h, d, steps[..k]), d) == Forgotten(h, d)
    decreases k
  {
    if k > 0 {
      DueStep(h, d, steps[0]);
      DuePrefix(ApplyDrop(h, d, steps[0]), d, steps[1..], k - 1);
      assert steps[..k][1..] == steps[1..][..k - 1];
    }
  }

  lemma {:induction false} RemovalsDue(h: Home, d: Deletion, order: seq<Tomb>)
    requires d.storeId !in h.live && !Matches(h, d) && forall i :: 0 <= i < |order| ==> order[i].storeId == d.storeId
    ensures AllDue(h, d, Removals(order))
    ensures ApplyDrops(h, d, Removals(order)) == h.(tombs := h.tombs - (set t | t in order))
    decreases |order|
  {
    if order == [] {
      assert h.tombs - (set t | t in order) == h.tombs;
    } else {
      var h' := h.(tombs := h.tombs - {order[0]});
      RemovalsDue(h', d, order[1..]);
      assert Removals(order)[1..] == Removals(order[1..]);
      assert h.tombs - (set t | t in order) == h'.tombs - (set t | t in order[1..]);
    }
  }

  /** The state in which only tombstones are left to remove. */
  function AfterHead(h: Home, d: Deletion): Home {
    Home(
      if Matches(h, d) then h.catalog - {d.root} else h.catalog,
      if MustRetire(h, d) then h.live - {d.storeId} else h.live,
      h.tombs + (if MustRetire(h, d) then {d.OwnTomb()} else {}))
  }

  lemma HeadEffect(h: Home, d: Deletion, rest: seq<DropStep>)
    requires !Superseded(h, d)
    ensures ApplyDrops(h, d, Head(h, d) + rest) == ApplyDrops(AfterHead(h, d), d, rest)
    ensures Runnable(h, d) && AllDue(AfterHead(h, d), d, rest) ==> AllDue(h, d, Head(h, d) + rest)
  {
    var retired := if MustRetire(h, d) then ApplyDrop(h, d, Retire) else h;
    var tail := (if Matches(h, d) then [Unregister] else []) + rest;
    if Matches(h, d) {
      assert tail[1..] == rest;
      assert ApplyDrop(retired, d, Unregister) == AfterHead(h, d);
    } else {
      assert tail == rest;
      assert retired == AfterHead(h, d);
    }
    var plan := Head(h, d) + rest;
    if !MustRetire(h, d) {
      assert plan == tail;
    } else if Matches(h, d) && d.generation.Some? {
      assert plan[1..] == [Retire] + tail && plan[1..][1..] == tail;
      var erased := ApplyDrop(h, d, EraseGraph);
      assert erased.live - {d.storeId} == h.live - {d.storeId};
      assert ApplyDrop(erased, d, Retire) == retired;
      assert ApplyDrops(h, d, plan) == ApplyDrops(erased, d, plan[1..]) == ApplyDrops(retired, d, tail);
    } else {
      assert plan[1..] == tail;
    }
  }

  lemma PlanDue(h: Home, d: Deletion, order: seq<Tomb>)
    requires Runnable(h, d) && Enumerates(order, RetiredBy(h, d))
    ensures AllDue(h, d, DropPlan(h, d, order))
    ensures ApplyDrops(h, d, DropPlan(h, d, order)) == Forgotten(h, d)
  {
    var mid := AfterHead(h, d);
    assert d.storeId !in mid.live && !Matches(mid, d);
    assert forall i :: 0 <= i < |order| ==> order[i] in RetiredBy(h, d);
    RemovalsDue(mid, d, order);
    HeadEffect(h, d, Removals(order));
    assert mid.tombs - (set t | t in order) == Forgotten(h, d).tombs;
  }

  /** Crashing after any step loses nothing: the deletion can still run, and still means the same. */
  lemma CrashKeepsDeletion(h: Home, d: Deletion, order: seq<Tomb>, k: nat)
    requires Runnable(h, d) && Enumerates(order, RetiredBy(h, d)) && k <= |DropPlan(h, d, order)|
    ensures Runnable(ApplyDrops(h, d, DropPlan(h, d, order)[..k]), d)
    ensures Forgotten(ApplyDrops(h, d, DropPlan(h, d, order)[..k]), d) == Forgotten(h, d)
  {
    PlanDue(h, d, order);
    DuePrefix(h, d, DropPlan(h, d, order), k);
  }

  /** Several attempts, each cut off by a crash after `crashes[i].1` steps. */
  ghost predicate Attempts(h: Home, d: Deletion, crashes: seq<(seq<Tomb>, nat)>, h': Home)
    decreases |crashes|
  {
    if crashes == [] then h' == h
    else
      var (order, k) := crashes[0];
      && Enumerates(order, RetiredBy(h, d)) && k <= |DropPlan(h, d, order)|
      && Attempts(ApplyDrops(h, d, DropPlan(h, d, order)[..k]), d, crashes[1..], h')
  }

  /** However often it crashes, retrying the deletion ends where an undisturbed deletion ends. */
  lemma {:induction false} RetriedDeletionForgets(h: Home, d: Deletion, crashes: seq<(seq<Tomb>, nat)>, h': Home, order: seq<Tomb>)
    requires Runnable(h, d) && Attempts(h, d, crashes, h') && Enumerates(order, RetiredBy(h', d))
    ensures ApplyDrops(h', d, DropPlan(h', d, order)) == Forgotten(h, d)
    ensures !Matches(Forgotten(h, d), d) && d.storeId !in Forgotten(h, d).live
    ensures forall t :: t in Forgotten(h, d).tombs ==> t.storeId != d.storeId
    decreases |crashes|
  {
    if crashes == [] {
      PlanDue(h, d, order);
    } else {
      CrashKeepsDeletion(h, d, crashes[0].0, crashes[0].1);
      RetriedDeletionForgets(ApplyDrops(h, d, DropPlan(h, d, crashes[0].0)[..crashes[0].1]), d, crashes[1..], h', order);
    }
  }

  /** A deletion that no longer owns the binding leaves catalog and live stores alone at every crash point. */
  lemma {:induction false} SupersededTouchesNothing(h: Home, d: Deletion, order: seq<Tomb>, k: nat)
    requires Superseded(h, d) && k <= |DropPlan(h, d, order)|
    ensures var h' := ApplyDrops(h, d, DropPlan(h, d, order)[..k]);
            h'.catalog == h.catalog && h'.live == h.live && h'.tombs == h.tombs - (set t | t in order[..k])
    decreases k
  {
    assert DropPlan(h, d, order) == Removals(order);
    RemovalsOnlyTombs(h, d, order[..k]);
    assert Removals(order)[..k] == Removals(order[..k]);
  }

  lemma {:induction false} RemovalsOnlyTombs(h: Home, d: Deletion, order: seq<Tomb>)
    ensures ApplyDrops(h, d, Removals(order)) == h.(tombs := h.tombs - (set t | t in order))
    decreases |order|
  {
    if order == [] {
      assert h.tombs - (set t | t in order) == h.tombs;
    } else {
      var h' := h.(tombs := h.tombs - {order[0]});
      RemovalsOnlyTombs(h', d, order[1..]);
      assert Removals(order)[1..] == Removals(order[1..]);
      assert h.tombs - (set t | t in order) == h'.tombs - (set t | t in order[1..]);
    }
  }

  /** What a complete deletion does in every case, blocked or not. */
  lemma PlanEffect(h: Home, d: Deletion, order: seq<Tomb>)
    ensures ApplyDrops(h, d, DropPlan(h, d, order)) ==
            if Superseded(h, d) then h.(tombs := h.tombs - (set t | t in order))
            else AfterHead(h, d).(tombs := AfterHead(h, d).tombs - (set t | t in order))
  {
    if Superseded(h, d) {
      assert DropPlan(h, d, order) == Removals(order);
      RemovalsOnlyTombs(h, d, order);
    } else {
      HeadEffect(h, d, Removals(order));
      RemovalsOnlyTombs(AfterHead(h, d), d, order);
    }
  }

  /** Without the premise on tombstones: a complete deletion leaves a live store exactly if one was rebuilt beside its tombstone. */
  lemma LiveStoreSurvivesExactly(h: Home, d: Deletion, order: seq<Tomb>)
    requires !Superseded(h, d)
    ensures d.storeId in ApplyDrops(h, d, DropPlan(h, d, order)).live <==> d.OwnTomb() in h.tombs && d.storeId in h.live
  {
    PlanEffect(h, d, order);
  }
}
