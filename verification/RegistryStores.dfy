/** The registry object: catalog rows, store directories and cached graph handles, changed in place. */
module RegistryStores {
  import opened Outcome
  import opened Registry

  datatype DropResult = DropResult(repoDeleted: bool, superseded: bool)

  /** The retired stores of the repository are gone, and its row and store too unless another binding has taken over. */
  predicate Dropped(before: Home, after: Home, d: Deletion, superseded: bool) {
    && after.tombs == (set t | t in before.tombs && t.storeId != d.storeId)
    && if superseded then after.catalog == before.catalog && after.live == before.live
       else
         && after.catalog == before.catalog - {d.root}
         && after.live == if Tomb(d.storeId, d.job) in before.tombs then before.live else before.live - {d.storeId}
  }

  lemma PlanDrops(h: Home, d: Deletion, order: seq<Tomb>)
    ensures Enumerates(order, RetiredBy(h, d)) ==> Dropped(h, ApplyDrops(h, d, DropPlan(h, d, order)), d, Superseded(h, d))
  {
    PlanEffect(h, d, order);
  }

  class ProjectStoreRegistry {
    var catalog: map<string, Record>
    var live: map<string, Live>
    var tombs: set<Tomb>
    var graphs: set<Binding>

    function Disk(): Home
      reads this
    {
      Home(catalog, live, tombs)
    }

    /** A restarted process keeps what is on disk and forgets its handles. */
    constructor (disk: Home)
      ensures Disk() == disk && graphs == {}
    {
      catalog, live, tombs, graphs := disk.catalog, disk.live, disk.tombs, {};
    }

    method EnsureGraph(root: string, gen: string, opens: bool) returns (r: Result<Record, StoreError>)
      modifies this
      ensures root in old(catalog) && old(catalog)[root].storeId != StoreIdForRoot(root) ==> r.Err?
      ensures r.Ok? && (root !in old(catalog) || old(catalog)[root].generation.None?) ==>
                Disk() == ApplyEnrols(old(Disk()), EnrolPlan(old(Disk()), root, gen))
      ensures r.Ok? && root in old(catalog) && old(catalog)[root].generation.Some? ==>
                Disk() == Reopened(old(Disk()), StoreIdForRoot(root), old(catalog)[root].generation.value)
      ensures r.Ok? ==>
                && root in catalog && r.value == catalog[root] && r.value.generation.Some?
                && GraphForBinding(Disk(), root, Binding(r.value.storeId, r.value.generation.value)).Ok?
                && Binding(r.value.storeId, r.value.generation.value) in graphs
      ensures r.Err? ==> Disk() == old(Disk())
    {
      var id := StoreIdForRoot(root);
      if root in catalog && catalog[root].storeId != id {
        return Err(NotRegistered);
      }
      if root !in catalog || catalog[root].generation.None? {
        Enrol(root, gen);
        graphs := graphs + {Binding(id, gen)};
        return Ok(catalog[root]);
      }
      var generation := catalog[root].generation.value;
      if id !in live || generation !in live[id].databases {
        // The native store decides whether it can recreate a missing database.
        if !opens { return Err(CannotOpen); }
        var present := if id in live then live[id] else Live({}, false);
        live := live[id := Live(present.databases + {generation}, present.indexed)];
      }
      graphs := graphs + {Binding(id, generation)};
      r := Ok(catalog[root]);
    }

    /** Register, create the store and its database, and activate. */
    method Enrol(root: string, gen: string)
      requires root in catalog ==> catalog[root].storeId == StoreIdForRoot(root) && catalog[root].generation.None?
      modifies this`catalog, this`live
      ensures Disk() == ApplyEnrols(old(Disk()), EnrolPlan(old(Disk()), root, gen))
      ensures root in catalog && catalog[root] == Record(StoreIdForRoot(root), Some(gen), SemanticStale)
      ensures StoreIdForRoot(root) in live && gen in live[StoreIdForRoot(root)].databases
    {
      var id := StoreIdForRoot(root);
      EnrolEffect(Disk(), root, gen);
      if root !in catalog {
        catalog := catalog[root := Record(id, None, Uninitialized)];
      }
      if id !in live {
        live := live[id := Live({}, false)];
      }
      live := live[id := Live(live[id].databases + {gen}, live[id].indexed)];
      catalog := catalog[root := catalog[root].(generation := Some(gen), state := SemanticStale)];
    }

    method OpenForBinding(root: string, b: Binding) returns (r: Result<(), StoreError>)
      modifies this`graphs
      ensures r == GraphForBinding(Disk(), root, b)
      ensures r == Err(StaleBinding) <==>
        root !in catalog || catalog[root].generation != Some(b.generation) || catalog[root].storeId != b.storeId
      ensures r.Ok? ==> b.storeId in live && b.generation in live[b.storeId].databases
      ensures r == Err(GraphMissing) ==> b.storeId !in live || b.generation !in live[b.storeId].databases
      ensures r.Ok? || r == Err(StaleBinding) || r == Err(GraphMissing)
      ensures graphs == if r.Ok? then old(graphs) + {b} else old(graphs)
    {
      if root !in catalog { return Err(StaleBinding); }
      var record := catalog[root];
      if record.generation.None? || b.storeId != record.storeId || b.generation != record.generation.value {
        return Err(StaleBinding);
      }
      if b.storeId !in live || b.generation !in live[b.storeId].databases {
        return Err(GraphMissing);
      }
      graphs := graphs + {b};
      r := Ok(());
    }

    /** Compare-and-set on the generation: only the state of that root moves, so every binding opens as before. */
    method UpdateState(root: string, expected: string, state: StoreState) returns (r: Result<Record, StoreError>)
      modifies this`catalog
      ensures r.Ok? <==> root in old(catalog) && old(catalog)[root].generation == Some(expected)
      ensures r.Err? ==> r.error == StaleBinding && catalog == old(catalog)
      ensures catalog.Keys == old(catalog).Keys
      ensures forall other :: other in catalog && other != root ==> catalog[other] == old(catalog)[other]
      ensures r.Ok? ==> r.value == catalog[root] && r.value.state == state
      ensures r.Ok? ==> catalog[root].(state := old(catalog)[root].state) == old(catalog)[root]
      ensures forall other, b :: GraphForBinding(Disk(), other, b) == GraphForBinding(old(Disk()), other, b)
      ensures r.Ok? ==> Registry.UpdateState(old(Disk()), root, expected, state) == Ok(Disk())
    {
      if root in catalog && catalog[root].generation == Some(expected) {
        catalog := catalog[root := catalog[root].(state := state)];
        return Ok(catalog[root]);
      }
      r := Err(StaleBinding);
    }

    method RemoveRetiredStores(storeId: string) returns (ghost order: seq<Tomb>)
      modifies this`tombs
      ensures Enumerates(order, set t | t in old(tombs) && t.storeId == storeId)
      ensures tombs == old(tombs) - (set t | t in order)
    {
      order := [];
      var todo := set t | t in tombs && t.storeId == storeId;
      while todo != {}
        invariant forall t :: t in todo ==> t in old(tombs) && t.storeId == storeId && t !in order
        invariant forall t :: t in order ==> t in old(tombs) && t.storeId == storeId
        invariant forall t :: t in old(tombs) && t.storeId == storeId ==> t in order || t in todo
        invariant forall i, j :: 0 <= i < j < |order| ==> order[i] != order[j]
        invariant tombs == old(tombs) - (set t | t in order)
        decreases |todo|
      {
        var tomb :| tomb in todo;
        tombs := tombs - {tomb};
        order := order + [tomb];
        todo := todo - {tomb};
      }
    }

    /**
    Carries out a complete deletion plan, or fails before its first step when the graph database is gone.  A deletion
    whose binding the catalog no longer holds removes only retired stores.
    */
    method DeleteRepository(d: Deletion) returns (r: Result<DropResult, StoreError>, ghost order: seq<Tomb>)
      modifies this
      ensures r.Err? <==>
        && d.root in old(catalog) && old(catalog)[d.root].storeId == d.storeId && old(catalog)[d.root].generation == d.generation
        && Tomb(d.storeId, d.job) !in old(tombs) && d.storeId in old(live)
        && d.generation.Some? && d.generation.value !in old(live)[d.storeId].databases
      ensures r.Err? ==> r.error == GraphMissing && Disk() == old(Disk())
      ensures r.Ok? ==>
                && Enumerates(order, RetiredBy(old(Disk()), d))
                && Disk() == ApplyDrops(old(Disk()), d, DropPlan(old(Disk()), d, order))
                && (r.value.superseded <==>
                      d.root in old(catalog) && (old(catalog)[d.root].storeId != d.storeId || old(catalog)[d.root].generation != d.generation))
                && (r.value.repoDeleted <==> !r.value.superseded && (d.root in old(catalog) || d.storeId in old(live)))
      ensures r.Ok? ==> Dropped(old(Disk()), Disk(), d, r.value.superseded)
      ensures r.Ok? && MustRetire(old(Disk()), d) && Matches(old(Disk()), d) && d.generation.Some? ==>
                Binding(d.storeId, d.generation.value) !in graphs
    {
      order := [];
      ghost var before := Disk();
      var matches := d.root in catalog && catalog[d.root].storeId == d.storeId && catalog[d.root].generation == d.generation;
      if d.root in catalog && !matches {
        order := RemoveRetiredStores(d.storeId);
        PlanEffect(before, d, order);
        PlanDrops(before, d, order);
        assert RetiredBy(before, d) == set t | t in before.tombs && t.storeId == d.storeId;
        return Ok(DropResult(false, true)), order;
      }
      var deleted := d.root in catalog || d.storeId in live;
      if d.OwnTomb() !in tombs && d.storeId in live {
        if matches && d.generation.Some? {
          var binding := Binding(d.storeId, d.generation.value);
          var handle := OpenForBinding(d.root, binding);
          if handle.Err? { return Err(handle.error), order; }
          live := live[d.storeId := live[d.storeId].(indexed := false)];
          graphs := graphs - {binding};
        }
        live := live - {d.storeId};
        tombs := tombs + {d.OwnTomb()};
      }
      if matches {
        catalog := catalog - {d.root};
      }
      assert Disk() == AfterHead(before, d);
      order := RemoveRetiredStores(d.storeId);
      PlanEffect(before, d, order);
      PlanDrops(before, d, order);
      assert RetiredBy(before, d) == set t | t in AfterHead(before, d).tombs && t.storeId == d.storeId;
      r := Ok(DropResult(deleted, false));
    }
  }

  /** Opening an activated store recreates its database when it is missing, and changes nothing else. */
  function Reopened(h: Home, storeId: string, generation: string): Home {
    if storeId in h.live && generation in h.live[storeId].databases then h else AddDatabase(h, storeId, generation)
  }

  lemma EnrolEffect(h: Home, root: string, gen: string)
    requires root !in h.catalog || h.catalog[root].generation.None?
    ensures var id := StoreIdForRoot(root);
            var record := if root in h.catalog then h.catalog[root] else Record(id, None, Uninitialized);
            var present := if id in h.live then h.live[id] else Live({}, false);
            ApplyEnrols(h, EnrolPlan(h, root, gen)) ==
            Home(h.catalog[root := record.(generation := Some(gen), state := SemanticStale)],
                 h.live[id := Live(present.databases + {gen}, present.indexed)],
                 h.tombs)
  {
    EnrolInSteps(h, root, gen);
  }

  lemma EnrolInSteps(h: Home, root: string, gen: string)
    requires root !in h.catalog || h.catalog[root].generation.None?
    ensures var id := StoreIdForRoot(root);
            var created := ApplyEnrol(ApplyEnrol(h, RegisterRoot(root)), CreateStore(id));
            ApplyEnrols(h, EnrolPlan(h, root, gen)) ==
            ApplyEnrol(ApplyEnrol(created, CreateDatabase(id, gen)), Activate(root, gen))
  {
    var id := StoreIdForRoot(root);
    var h2 := ApplyEnrol(ApplyEnrol(h, RegisterRoot(root)), CreateStore(id));
    TwoSteps(h, RegisterRoot(root), CreateStore(id), [CreateDatabase(id, gen), Activate(root, gen)]);
    TwoSteps(h2, CreateDatabase(id, gen), Activate(root, gen), []);
    assert [CreateDatabase(id, gen), Activate(root, gen)] + [] == [CreateDatabase(id, gen), Activate(root, gen)];
    assert EnrolPlan(h, root, gen) == [RegisterRoot(root), CreateStore(id)] + [CreateDatabase(id, gen), Activate(root, gen)];
  }

  lemma TwoSteps(h: Home, a: EnrolStep, b: EnrolStep, rest: seq<EnrolStep>)
    ensures ApplyEnrols(h, [a, b] + rest) == ApplyEnrols(ApplyEnrol(ApplyEnrol(h, a), b), rest)
  {
    var plan := [a, b] + rest;
    assert plan[1..] == [b] + rest && plan[1..][1..] == rest;
    assert ApplyEnrols(ApplyEnrol(h, a), plan[1..]) == ApplyEnrols(ApplyEnrol(ApplyEnrol(h, a), b), rest);
  }
}
