/**
Graph traversal over one snapshot of the store (crates/scs-store/src/graph.rs:454-584).

The frontier is a stack, and a node counts as visited when it is pushed, so a limited depth does not mean
distance: the module proves what the result always is, and exactly when it is every reachable node.
*/
module Traverse {
  import opened Outcome

  datatype Edge = Edge(source: string, target: string, relationship: string)

  /** The store keeps the endpoints of every edge. */
  datatype Graph = Graph(nodes: set<string>, edges: seq<Edge>)

  datatype Direction = Outgoing | Incoming | Both

  datatype Error = Config | NotFound(id: string)

  /** Where to start, how far to go, and which edges to follow. */
  datatype Query = Query(start: string, maxDepth: int, relationship: Option<string>, direction: Direction)

  datatype Item = Item(id: string, depth: nat, path: seq<string>)

  ghost predicate Sound(g: Graph) {
    forall i :: 0 <= i < |g.edges| ==> g.edges[i].source in g.nodes && g.edges[i].target in g.nodes
  }

  predicate Matches(e: Edge, id: string, relationship: Option<string>, direction: Direction) {
    && (relationship.Some? ==> e.relationship == relationship.value)
    && match direction
       case Outgoing => e.source == id
       case Incoming => e.target == id
       case Both => e.source == id || e.target == id
  }

  /** The end of an edge a neighbor is taken from. */
  function FarEnd(e: Edge, id: string, direction: Direction): string {
    if direction == Incoming || (direction == Both && e.target == id) then e.source else e.target
  }

  function NeighborsIn(edges: seq<Edge>, id: string, relationship: Option<string>, direction: Direction): seq<string> {
    if edges == [] then []
    else
      var last := edges[|edges| - 1];
      NeighborsIn(edges[..|edges| - 1], id, relationship, direction)
      + (if Matches(last, id, relationship, direction) then [FarEnd(last, id, direction)] else [])
  }

  /** One step along a matching edge. */
  ghost predicate Step(g: Graph, q: Query, u: string, v: string) {
    exists i :: 0 <= i < |g.edges| && Matches(g.edges[i], u, q.relationship, q.direction) && v == FarEnd(g.edges[i], u, q.direction)
  }

  function Neighbors(g: Graph, q: Query, id: string): seq<string> {
    NeighborsIn(g.edges, id, q.relationship, q.direction)
  }

  lemma {:induction false} NeighborsInExactly(edges: seq<Edge>, u: string, v: string, relationship: Option<string>, direction: Direction)
    ensures v in NeighborsIn(edges, u, relationship, direction) <==>
            exists i :: 0 <= i < |edges| && Matches(edges[i], u, relationship, direction) && v == FarEnd(edges[i], u, direction)
  {
    if edges != [] {
      var n := |edges| - 1;
      NeighborsInExactly(edges[..n], u, v, relationship, direction);
      if i :| 0 <= i < |edges| && Matches(edges[i], u, relationship, direction) && v == FarEnd(edges[i], u, direction) {
        if i < n {
          assert edges[..n][i] == edges[i];
        }
      }
    }
  }

  /** The neighbors of a node are the nodes one step away. */
  lemma NeighborsExactly(g: Graph, q: Query, u: string, v: string)
    ensures v in Neighbors(g, q, u) <==> Step(g, q, u, v)
  {
    NeighborsInExactly(g.edges, u, v, q.relationship, q.direction);
  }

  /** An edge leads from one node to another: along itself, against itself, or either way. */
  predicate Leads(e: Edge, u: string, v: string, direction: Direction) {
    match direction
    case Outgoing => e.source == u && e.target == v
    case Incoming => e.source == v && e.target == u
    case Both => (e.source == u && e.target == v) || (e.source == v && e.target == u)
  }

  /** A step follows an edge of the wanted relationship, any when none is named, in the wanted direction. */
  lemma StepExactly(g: Graph, q: Query, u: string, v: string)
    ensures Step(g, q, u, v) <==>
            exists e :: e in g.edges && (q.relationship.None? || q.relationship == Some(e.relationship)) && Leads(e, u, v, q.direction)
  {
    if e :| e in g.edges && (q.relationship.None? || q.relationship == Some(e.relationship)) && Leads(e, u, v, q.direction) {
      var i :| 0 <= i < |g.edges| && g.edges[i] == e;
      assert Matches(g.edges[i], u, q.relationship, q.direction) && v == FarEnd(g.edges[i], u, q.direction);
    }
    if Step(g, q, u, v) {
      var i :| 0 <= i < |g.edges| && Matches(g.edges[i], u, q.relationship, q.direction) && v == FarEnd(g.edges[i], u, q.direction);
      assert g.edges[i] in g.edges && Leads(g.edges[i], u, v, q.direction);
    }
  }

  /** Neighbors are listed edge by edge, in the order of the edges. */
  lemma {:induction false} NeighborsInOrder(a: seq<Edge>, b: seq<Edge>, id: string, relationship: Option<string>, direction: Direction)
    ensures NeighborsIn(a + b, id, relationship, direction)
         == NeighborsIn(a, id, relationship, direction) + NeighborsIn(b, id, relationship, direction)
    ensures |NeighborsIn(b, id, relationship, direction)| <= |b|
    decreases |b|
  {
    if b == [] {
      assert a + b == a;
    } else {
      assert (a + b)[..|a + b| - 1] == a + b[..|b| - 1];
      NeighborsInOrder(a, b[..|b| - 1], id, relationship, direction);
    }
  }

  /** Seen from both ends, an edge can be walked both ways. */
  lemma BothIsSymmetric(g: Graph, q: Query, u: string, v: string)
    requires q.direction == Both
    ensures Step(g, q, u, v) <==> Step(g, q, v, u)
  {
  }

  method GetNeighbors(g: Graph, id: string, relationship: Option<string>, direction: Direction) returns (ids: seq<string>)
    ensures ids == NeighborsIn(g.edges, id, relationship, direction)
  {
    ids := [];
    var i := 0;
    while i < |g.edges|
      invariant 0 <= i <= |g.edges| && ids == NeighborsIn(g.edges[..i], id, relationship, direction)
    {
      var e := g.edges[i];
      assert g.edges[..i + 1][..i] == g.edges[..i];
      if Matches(e, id, relationship, direction) {
        if direction == Incoming || (direction == Both && e.target == id) {
          ids := ids + [e.source];
        } else {
          ids := ids + [e.target];
        }
      }
      i := i + 1;
    }
    assert g.edges[..|g.edges|] == g.edges;
  }

  // ---------------------------------------------------------------- the search, one popped entry at a time

  datatype Search = Search(results: seq<Item>, visited: set<string>, frontier: seq<Item>)

  function Begin(q: Query): Search {
    Search([], {q.start}, [Item(q.start, 0, [q.start])])
  }

  function Push(s: Search, from: Item, id: string): Search {
    if id in s.visited then s
    else Search(s.results, s.visited + {id}, s.frontier + [Item(id, from.depth + 1, from.path + [id])])
  }

  function PushAll(s: Search, from: Item, ids: seq<string>): Search {
    if ids == [] then s else Push(PushAll(s, from, ids[..|ids| - 1]), from, ids[|ids| - 1])
  }

  function Take(s: Search): Search
    requires s.frontier != []
  {
    s.(results := s.results + [s.frontier[|s.frontier| - 1]], frontier := s.frontier[..|s.frontier| - 1])
  }

  function Pop(g: Graph, q: Query, s: Search): Search {
    if s.frontier == [] then s
    else
      var item := s.frontier[|s.frontier| - 1];
      if item.depth == q.maxDepth then Take(s) else PushAll(Take(s), item, Neighbors(g, q, item.id))
  }

  function Iterate(g: Graph, q: Query, n: nat): Search {
    if n == 0 then Begin(q) else Pop(g, q, Iterate(g, q, n - 1))
  }

  // ---------------------------------------------------------------- what every search keeps

  ghost predicate DistinctNodes(path: seq<string>) {
    forall i, j :: 0 <= i < j < |path| ==> path[i] != path[j]
  }

  /** A walk along matching edges. */
  ghost predicate Walk(g: Graph, q: Query, path: seq<string>) {
    forall i, j :: 0 <= i < j < |path| && j == i + 1 ==> Step(g, q, path[i], path[j])
  }

  /** An item carries a simple path from the start to its node, as long as its depth. */
  ghost predicate Good(g: Graph, q: Query, item: Item) {
    && |item.path| == item.depth + 1
    && item.depth <= q.maxDepth
    && item.path[0] == q.start
    && item.path[item.depth] == item.id
    && DistinctNodes(item.path)
    && Walk(g, q, item.path)
  }

  ghost predicate AllGood(g: Graph, q: Query, s: Search, items: seq<Item>) {
    forall i :: 0 <= i < |items| ==> Good(g, q, items[i]) && forall k :: 0 <= k < |items[i].path| ==> items[i].path[k] in s.visited
  }

  ghost predicate DistinctIds(items: seq<Item>) {
    forall i, j :: 0 <= i < j < |items| ==> items[i].id != items[j].id
  }

  predicate Holds(items: seq<Item>, id: string) {
    exists i :: 0 <= i < |items| && items[i].id == id
  }

  /** Each visited node is held once, as a result or on the frontier. */
  ghost predicate Accounted(s: Search) {
    && DistinctIds(s.results)
    && DistinctIds(s.frontier)
    && (forall id :: id in s.visited <==> Holds(s.results, id) || Holds(s.frontier, id))
    && (forall i, j :: 0 <= i < |s.results| && 0 <= j < |s.frontier| ==> s.results[i].id != s.frontier[j].id)
  }

  ghost predicate Shaped(g: Graph, q: Query, s: Search) {
    && AllGood(g, q, s, s.results)
    && AllGood(g, q, s, s.frontier)
    && Accounted(s)
    && s.visited <= g.nodes
    && q.start in s.visited
  }

  /** The neighbors of a result above the depth limit have been visited. */
  ghost predicate Expanded(g: Graph, q: Query, s: Search, item: Item) {
    item.depth < q.maxDepth ==> forall v :: v in Neighbors(g, q, item.id) ==> v in s.visited
  }

  ghost predicate AllExpanded(g: Graph, q: Query, s: Search) {
    forall i :: 0 <= i < |s.results| ==> Expanded(g, q, s, s.results[i])
  }

  lemma HoldsSnoc(items: seq<Item>, item: Item, id: string)
    ensures Holds(items + [item], id) <==> Holds(items, id) || item.id == id
  {
    if Holds(items, id) {
      var i :| 0 <= i < |items| && items[i].id == id;
      assert (items + [item])[i].id == id;
    }
    assert (items + [item])[|items|] == item;
    if i :| 0 <= i < |items + [item]| && (items + [item])[i].id == id {
      if i < |items| {
        assert items[i].id == id;
      }
    }
  }

  lemma PushKeepsAccounted(s: Search, from: Item, id: string)
    requires Accounted(s)
    ensures Accounted(Push(s, from, id))
  {
    if id !in s.visited {
      var item := Item(id, from.depth + 1, from.path + [id]);
      forall x
        ensures x in s.visited + {id} <==> Holds(s.results, x) || Holds(s.frontier + [item], x)
      {
        HoldsSnoc(s.frontier, item, x);
      }
      forall i | 0 <= i < |s.results|
        ensures s.results[i].id != id
      {
        assert Holds(s.results, s.results[i].id);
      }
      forall j | 0 <= j < |s.frontier|
        ensures s.frontier[j].id != id
      {
        assert Holds(s.frontier, s.frontier[j].id);
      }
    }
  }

  lemma PushedIsGood(g: Graph, q: Query, s: Search, from: Item, id: string)
    requires Good(g, q, from) && from.depth < q.maxDepth && Step(g, q, from.id, id)
    requires id !in s.visited && forall k :: 0 <= k < |from.path| ==> from.path[k] in s.visited
    ensures Good(g, q, Item(id, from.depth + 1, from.path + [id]))
  {
  }

  /** A search from whose item new neighbors may be pushed. */
  ghost predicate Pushing(g: Graph, q: Query, s: Search, from: Item) {
    && Shaped(g, q, s)
    && Good(g, q, from) && from.depth < q.maxDepth
    && forall k :: 0 <= k < |from.path| ==> from.path[k] in s.visited
  }

  lemma PushKeepsShaped(g: Graph, q: Query, s: Search, from: Item, id: string)
    requires Sound(g) && Pushing(g, q, s, from) && Step(g, q, from.id, id)
    ensures Pushing(g, q, Push(s, from, id), from)
    ensures s.visited <= Push(s, from, id).visited && id in Push(s, from, id).visited
  {
    PushKeepsAccounted(s, from, id);
    if id !in s.visited {
      PushedIsGood(g, q, s, from, id);
    }
  }

  lemma {:induction false} PushAllKeepsShaped(g: Graph, q: Query, s: Search, from: Item, ids: seq<string>)
    requires Sound(g) && Pushing(g, q, s, from)
    requires forall v :: v in ids ==> Step(g, q, from.id, v)
    ensures Pushing(g, q, PushAll(s, from, ids), from)
    ensures s.visited <= PushAll(s, from, ids).visited
    ensures forall v :: v in ids ==> v in PushAll(s, from, ids).visited
  {
    if ids != [] {
      var n := |ids| - 1;
      PushAllKeepsShaped(g, q, s, from, ids[..n]);
      PushKeepsShaped(g, q, PushAll(s, from, ids[..n]), from, ids[n]);
    }
  }

  lemma TakeKeepsShaped(g: Graph, q: Query, s: Search)
    requires Shaped(g, q, s) && s.frontier != []
    ensures Shaped(g, q, Take(s))
  {
    var n := |s.frontier| - 1;
    var item := s.frontier[n];
    assert s.frontier == s.frontier[..n] + [item];
    forall id
      ensures id in s.visited <==> Holds(s.results + [item], id) || Holds(s.frontier[..n], id)
    {
      HoldsSnoc(s.results, item, id);
      HoldsSnoc(s.frontier[..n], item, id);
    }
  }

  ghost predicate Searching(g: Graph, q: Query, s: Search) {
    Shaped(g, q, s) && AllExpanded(g, q, s)
  }

  lemma PopKeepsSearching(g: Graph, q: Query, s: Search)
    requires Sound(g) && Searching(g, q, s)
    ensures Searching(g, q, Pop(g, q, s))
  {
    if s.frontier != [] {
      var item := s.frontier[|s.frontier| - 1];
      TakeKeepsShaped(g, q, s);
      if item.depth != q.maxDepth {
        var ids := Neighbors(g, q, item.id);
        forall v | v in ids
          ensures Step(g, q, item.id, v)
        {
          NeighborsExactly(g, q, item.id, v);
        }
        PushAllKeepsShaped(g, q, Take(s), item, ids);
        PushAllResults(Take(s), item, ids);
        PopExpands(g, q, s, Pop(g, q, s));
      }
    }
  }

  lemma PopExpands(g: Graph, q: Query, s: Search, now: Search)
    requires AllExpanded(g, q, s) && s.frontier != [] && s.visited <= now.visited && now.results == Take(s).results
    requires forall v :: v in Neighbors(g, q, s.frontier[|s.frontier| - 1].id) ==> v in now.visited
    ensures AllExpanded(g, q, now)
  {
  }

  lemma BeginIsSearching(g: Graph, q: Query)
    requires q.start in g.nodes && q.maxDepth >= 0
    ensures Searching(g, q, Begin(q))
  {
    forall id
      ensures id in {q.start} <==> Holds([], id) || Holds(Begin(q).frontier, id)
    {
      HoldsSnoc([], Begin(q).frontier[0], id);
      assert [] + [Begin(q).frontier[0]] == Begin(q).frontier;
    }
  }

  lemma {:induction false} IterateIsSearching(g: Graph, q: Query, n: nat)
    requires Sound(g) && q.start in g.nodes && q.maxDepth >= 0
    ensures Searching(g, q, Iterate(g, q, n))
  {
    if n == 0 {
      BeginIsSearching(g, q);
    } else {
      IterateIsSearching(g, q, n - 1);
      PopKeepsSearching(g, q, Iterate(g, q, n - 1));
    }
  }

  lemma {:induction false} IdsBounded(items: seq<Item>, ids: set<string>)
    requires DistinctIds(items) && forall i :: 0 <= i < |items| ==> items[i].id in ids
    ensures |items| <= |ids|
  {
    if items != [] {
      var n := |items| - 1;
      IdsBounded(items[..n], ids - {items[n].id});
    }
  }

  lemma ResultsBounded(g: Graph, q: Query, s: Search)
    requires Shaped(g, q, s)
    ensures |s.results| <= |g.nodes|
  {
    forall i | 0 <= i < |s.results|
      ensures s.results[i].id in g.nodes
    {
      assert Holds(s.results, s.results[i].id);
    }
    IdsBounded(s.results, g.nodes);
  }

  lemma {:induction false} IterateStays(g: Graph, q: Query, n: nat, m: nat)
    requires n <= m && Iterate(g, q, n).frontier == []
    ensures Iterate(g, q, m) == Iterate(g, q, n)
    decreases m
  {
    if n < m {
      IterateStays(g, q, n, m - 1);
    }
  }

  // ---------------------------------------------------------------- what a traversal returns

  /** As many rounds as there are nodes always empty the frontier. */
  function Traversal(g: Graph, q: Query): Search {
    Iterate(g, q, |g.nodes|)
  }

  ghost predicate IsRoute(g: Graph, q: Query, id: string, path: seq<string>) {
    path != [] && path[0] == q.start && path[|path| - 1] == id && Walk(g, q, path)
  }

  ghost predicate Reachable(g: Graph, q: Query, id: string) {
    exists path :: IsRoute(g, q, id, path)
  }

  lemma PopYields(g: Graph, q: Query, s: Search, n: nat)
    requires s.frontier == [] || |s.results| == n
    ensures Pop(g, q, s).frontier == [] || |Pop(g, q, s).results| == n + 1
  {
    if s.frontier != [] {
      RoundYields(g, q, s);
    }
  }

  lemma {:induction false} EachRoundYields(g: Graph, q: Query, n: nat)
    ensures Iterate(g, q, n).frontier == [] || |Iterate(g, q, n).results| == n
  {
    if n > 0 {
      EachRoundYields(g, q, n - 1);
      PopYields(g, q, Iterate(g, q, n - 1), n - 1);
    }
  }

  lemma {:induction false} PushAllResults(s: Search, from: Item, ids: seq<string>)
    ensures PushAll(s, from, ids).results == s.results
  {
    if ids != [] {
      PushAllResults(s, from, ids[..|ids| - 1]);
    }
  }

  lemma RoundYields(g: Graph, q: Query, s: Search)
    requires s.frontier != []
    ensures Pop(g, q, s).results == s.results + [s.frontier[|s.frontier| - 1]]
  {
    var item := s.frontier[|s.frontier| - 1];
    PushAllResults(Take(s), item, Neighbors(g, q, item.id));
  }

  lemma TraversalIsDone(g: Graph, q: Query)
    requires Sound(g) && q.start in g.nodes && q.maxDepth >= 0
    ensures Searching(g, q, Traversal(g, q)) && Traversal(g, q).frontier == []
  {
    var n := |g.nodes|;
    IterateIsSearching(g, q, n);
    EachRoundYields(g, q, n);
    var s := Iterate(g, q, n);
    if s.frontier != [] {
      EachRoundYields(g, q, n + 1);
      IterateIsSearching(g, q, n + 1);
      RoundYields(g, q, s);
      ResultsBounded(g, q, Iterate(g, q, n + 1));
      assert false;
    }
  }

  /** Every item has a simple path from the start as long as its depth, within the limit; every node appears once. */
  lemma TraversalPaths(g: Graph, q: Query)
    requires Sound(g) && q.start in g.nodes && q.maxDepth >= 0
    ensures DistinctIds(Traversal(g, q).results)
    ensures forall i :: 0 <= i < |Traversal(g, q).results| ==> Good(g, q, Traversal(g, q).results[i])
    ensures Holds(Traversal(g, q).results, q.start)
  {
    TraversalIsDone(g, q);
    var s := Traversal(g, q);
    assert q.start in s.visited;
    assert !Holds(s.frontier, q.start);
  }

  lemma {:induction false} ClosedReaches(g: Graph, q: Query, s: set<string>, path: seq<string>, k: nat)
    requires k < |path| && path[0] == q.start && Walk(g, q, path)
    requires q.start in s && forall u, v :: u in s && Step(g, q, u, v) ==> v in s
    ensures path[k] in s
  {
    if k > 0 {
      ClosedReaches(g, q, s, path, k - 1);
      assert Step(g, q, path[k - 1], path[k]);
    }
  }

  /** No result at the depth limit has a neighbor that was left out. */
  ghost predicate Closed(g: Graph, q: Query, results: seq<Item>) {
    forall i, v :: 0 <= i < |results| && results[i].depth == q.maxDepth && Step(g, q, results[i].id, v) ==> Holds(results, v)
  }

  ghost predicate ReachesAll(g: Graph, q: Query, results: seq<Item>) {
    forall id :: Holds(results, id) <==> Reachable(g, q, id)
  }

  lemma ResultsReachable(g: Graph, q: Query, results: seq<Item>, id: string)
    requires Holds(results, id) && forall i :: 0 <= i < |results| ==> Good(g, q, results[i])
    ensures Reachable(g, q, id)
  {
    var i :| 0 <= i < |results| && results[i].id == id;
    assert Good(g, q, results[i]);
    assert IsRoute(g, q, id, results[i].path);
  }

  lemma StepExtendsReach(g: Graph, q: Query, u: string, v: string)
    requires Reachable(g, q, u) && Step(g, q, u, v)
    ensures Reachable(g, q, v)
  {
    var path :| IsRoute(g, q, u, path);
    var longer := path + [v];
    forall i, j | 0 <= i < j < |longer| && j == i + 1
      ensures Step(g, q, longer[i], longer[j])
    {
      if j < |path| {
        assert Step(g, q, path[i], path[j]);
      }
    }
    assert IsRoute(g, q, v, longer);
  }

  lemma ClosedIsComplete(g: Graph, q: Query, s: Search, id: string)
    requires Searching(g, q, s) && s.frontier == [] && Closed(g, q, s.results) && Reachable(g, q, id)
    ensures Holds(s.results, id)
  {
    forall u, v | u in s.visited && Step(g, q, u, v)
      ensures v in s.visited
    {
      assert !Holds(s.frontier, u) && Holds(s.results, u);
      var i :| 0 <= i < |s.results| && s.results[i].id == u;
      assert Good(g, q, s.results[i]);
      NeighborsExactly(g, q, u, v);
      assert Expanded(g, q, s, s.results[i]);
    }
    var path :| IsRoute(g, q, id, path);
    ClosedReaches(g, q, s.visited, path, |path| - 1);
    assert !Holds(s.frontier, id);
  }

  /** A limited traversal returns every reachable node exactly when the limit cut nothing off. */
  lemma CompleteExactly(g: Graph, q: Query)
    requires Sound(g) && q.start in g.nodes && q.maxDepth >= 0
    ensures ReachesAll(g, q, Traversal(g, q).results) <==> Closed(g, q, Traversal(g, q).results)
  {
    TraversalIsDone(g, q);
    var s := Traversal(g, q);
    forall id | Holds(s.results, id)
      ensures Reachable(g, q, id)
    {
      ResultsReachable(g, q, s.results, id);
    }
    if Closed(g, q, s.results) {
      forall id | Reachable(g, q, id)
        ensures Holds(s.results, id)
      {
        ClosedIsComplete(g, q, s, id);
      }
    }
    if ReachesAll(g, q, s.results) {
      forall i, v | 0 <= i < |s.results| && s.results[i].depth == q.maxDepth && Step(g, q, s.results[i].id, v)
        ensures Holds(s.results, v)
      {
        assert Holds(s.results, s.results[i].id);
        StepExtendsReach(g, q, s.results[i].id, v);
      }
    }
  }

  lemma {:induction false} SimplePathFills(path: seq<string>, nodes: set<string>)
    requires DistinctNodes(path) && |path| >= |nodes| && forall k :: 0 <= k < |path| ==> path[k] in nodes
    ensures forall n :: n in nodes ==> n in path
  {
    if path != [] {
      var last := |path| - 1;
      forall k | 0 <= k < last
        ensures path[..last][k] in nodes - {path[last]}
      {
        assert path[k] != path[last];
      }
      SimplePathFills(path[..last], nodes - {path[last]});
      forall n | n in nodes
        ensures n in path
      {
        assert n == path[last] || n in path[..last];
      }
    }
  }

  /** With a limit of at least the number of nodes less one, the result is exactly the reachable nodes. */
  lemma DeepTraversalIsComplete(g: Graph, q: Query)
    requires Sound(g) && q.start in g.nodes && q.maxDepth >= |g.nodes| - 1
    ensures ReachesAll(g, q, Traversal(g, q).results)
  {
    assert q.maxDepth >= 0 by {
      SubsetPositive(g.nodes, q.start);
    }
    TraversalIsDone(g, q);
    var s := Traversal(g, q);
    forall i, v | 0 <= i < |s.results| && s.results[i].depth == q.maxDepth && Step(g, q, s.results[i].id, v)
      ensures Holds(s.results, v)
    {
      var path := s.results[i].path;
      SimplePathFills(path, g.nodes);
      StepStays(g, q, s.results[i].id, v);
      assert v in path && v in s.visited;
      assert !Holds(s.frontier, v);
    }
    CompleteExactly(g, q);
  }

  lemma SubsetPositive(nodes: set<string>, id: string)
    requires id in nodes
    ensures |nodes| >= 1
  {
  }

  lemma StepStays(g: Graph, q: Query, u: string, v: string)
    requires Sound(g) && Step(g, q, u, v)
    ensures v in g.nodes
  {
  }

  // ---------------------------------------------------------------- the loop

  /** The state after n rounds. */
  ghost predicate OnCourse(g: Graph, q: Query, s: Search, n: nat) {
    s == Iterate(g, q, n) && n == |s.results| <= |g.nodes| && (q.start !in g.nodes ==> n == 0)
  }

  lemma CourseContinues(g: Graph, q: Query, s: Search, n: nat)
    requires Sound(g) && q.maxDepth >= 0
    requires OnCourse(g, q, s, n) && s.frontier != [] && s.frontier[|s.frontier| - 1].id in g.nodes
    ensures OnCourse(g, q, Pop(g, q, s), n + 1)
    ensures n < |g.nodes|
  {
    assert n == 0 ==> s == Begin(q);
    IterateIsSearching(g, q, n + 1);
    RoundYields(g, q, s);
    ResultsBounded(g, q, Pop(g, q, s));
  }

  /** The only node that can be missing is the start, and then nothing was found. */
  lemma CourseFails(g: Graph, q: Query, s: Search, n: nat)
    requires Sound(g) && q.maxDepth >= 0
    requires OnCourse(g, q, s, n) && s.frontier != [] && s.frontier[|s.frontier| - 1].id !in g.nodes
    ensures q.start !in g.nodes && s.frontier[|s.frontier| - 1].id == q.start
  {
    if q.start in g.nodes {
      IterateIsSearching(g, q, n);
      assert Holds(s.frontier, s.frontier[|s.frontier| - 1].id);
    }
  }

  method Traverse(g: Graph, q: Query) returns (r: Result<seq<Item>, Error>)
    requires Sound(g)
    ensures q.maxDepth < 0 ==> r == Err(Config)
    ensures q.maxDepth >= 0 && q.start !in g.nodes ==> r == Err(NotFound(q.start))
    ensures q.maxDepth >= 0 && q.start in g.nodes ==> r == Ok(Traversal(g, q).results)
  {
    if q.maxDepth < 0 {
      return Err(Config);
    }
    var results: seq<Item> := [];
    var visited := {q.start};
    var frontier := [Item(q.start, 0, [q.start])];
    ghost var n := 0;
    while frontier != []
      invariant OnCourse(g, q, Search(results, visited, frontier), n)
      invariant q.start !in g.nodes ==> frontier != []
      decreases |g.nodes| - n
    {
      ghost var before := Search(results, visited, frontier);
      var item := frontier[|frontier| - 1];
      if item.id !in g.nodes {
        CourseFails(g, q, before, n);
        return Err(NotFound(item.id));
      }
      CourseContinues(g, q, before, n);
      results, visited, frontier := VisitTop(g, q, results, visited, frontier);
      n := n + 1;
    }
    TraversalFrom(g, q, n);
    r := Ok(results);
  }

  lemma TraversalFrom(g: Graph, q: Query, n: nat)
    requires Iterate(g, q, n).frontier == [] && n <= |g.nodes|
    ensures Traversal(g, q) == Iterate(g, q, n)
  {
    IterateStays(g, q, n, |g.nodes|);
  }

  /** One round: the popped entry becomes a result and, above the depth limit, its new neighbors are pushed. */
  method VisitTop(g: Graph, q: Query, results: seq<Item>, visited: set<string>, frontier: seq<Item>)
    returns (results': seq<Item>, visited': set<string>, frontier': seq<Item>)
    requires frontier != []
    ensures Search(results', visited', frontier') == Pop(g, q, Search(results, visited, frontier))
  {
    var item := frontier[|frontier| - 1];
    results', visited', frontier' := results + [item], visited, frontier[..|frontier| - 1];
    if item.depth != q.maxDepth {
      var neighbors := GetNeighbors(g, item.id, q.relationship, q.direction);
      visited', frontier' := PushNeighbors(results', visited', frontier', item, neighbors);
    }
  }

  method PushNeighbors(ghost results: seq<Item>, seen: set<string>, open: seq<Item>, item: Item, neighbors: seq<string>)
    returns (visited: set<string>, frontier: seq<Item>)
    ensures Search(results, visited, frontier) == PushAll(Search(results, seen, open), item, neighbors)
  {
    visited, frontier := seen, open;
    var i := 0;
    while i < |neighbors|
      invariant 0 <= i <= |neighbors| && Search(results, visited, frontier) == PushAll(Search(results, seen, open), item, neighbors[..i])
    {
      assert neighbors[..i + 1][..i] == neighbors[..i];
      if neighbors[i] !in visited {
        visited := visited + {neighbors[i]};
        frontier := frontier + [Item(neighbors[i], item.depth + 1, item.path + [neighbors[i]])];
      }
      i := i + 1;
    }
    assert neighbors[..|neighbors|] == neighbors;
  }

  // ---------------------------------------------------------------- a depth limit is not a distance

  /** Two ways from a to e: the short one over b, and the long one over c and d, which the stack takes first. */
  const DETOUR := [
    Edge("a", "b", "calls"), Edge("a", "c", "calls"), Edge("c", "d", "calls"),
    Edge("d", "e", "calls"), Edge("b", "e", "calls"), Edge("e", "f", "calls")]

  const DETOUR_GRAPH := Graph({"a", "b", "c", "d", "e", "f"}, DETOUR)

  const THREE_STEPS := Query("a", 3, None, Outgoing)

  lemma NeighborsStep(edges: seq<Edge>, n: nat, id: string)
    requires n < |edges|
    ensures NeighborsIn(edges[..n + 1], id, None, Outgoing)
         == NeighborsIn(edges[..n], id, None, Outgoing) + if edges[n].source == id then [edges[n].target] else []
  {
    assert edges[..n + 1][..n] == edges[..n];
  }

  lemma DetourNeighbors(id: string)
    ensures NeighborsIn(DETOUR, id, None, Outgoing) ==
      (if id == "a" then ["b"] else []) + (if id == "a" then ["c"] else []) + (if id == "c" then ["d"] else [])
      + (if id == "d" then ["e"] else []) + (if id == "b" then ["e"] else []) + (if id == "e" then ["f"] else [])
  {
    DetourHalf(id);
    var edges := DETOUR;
    assert edges[..6] == edges;
    NeighborsStep(edges, 3, id);
    NeighborsStep(edges, 4, id);
    NeighborsStep(edges, 5, id);
  }

  lemma DetourHalf(id: string)
    ensures NeighborsIn(DETOUR[..3], id, None, Outgoing) ==
      (if id == "a" then ["b"] else []) + (if id == "a" then ["c"] else []) + (if id == "c" then ["d"] else [])
  {
    var edges := DETOUR;
    assert edges[..0] == [];
    NeighborsStep(edges, 0, id);
    NeighborsStep(edges, 1, id);
    NeighborsStep(edges, 2, id);
  }

  lemma PopOne(s: Search, rest: seq<Item>, item: Item, next: string)
    requires s.frontier == rest + [item] && item.depth != 3 && next !in s.visited
    requires Neighbors(DETOUR_GRAPH, THREE_STEPS, item.id) == [next]
    ensures Pop(DETOUR_GRAPH, THREE_STEPS, s)
         == Search(s.results + [item], s.visited + {next}, rest + [Item(next, item.depth + 1, item.path + [next])])
  {
    var ids := [next];
    assert ids[..0] == [];
    assert PushAll(Take(s), item, ids[..0]) == Take(s);
  }

  lemma DetourStarts()
    ensures Iterate(DETOUR_GRAPH, THREE_STEPS, 1)
         == Search([Item("a", 0, ["a"])], {"a", "b", "c"}, [Item("b", 1, ["a", "b"]), Item("c", 1, ["a", "c"])])
  {
    DetourNeighbors("a");
    var s := Begin(THREE_STEPS);
    var item := Item("a", 0, ["a"]);
    var ids := ["b", "c"];
    assert Neighbors(DETOUR_GRAPH, THREE_STEPS, "a") == ids;
    assert Iterate(DETOUR_GRAPH, THREE_STEPS, 0) == s;
    assert ids[..1] == ["b"] && ids[..1][..0] == [];
    assert PushAll(Take(s), item, ids[..1][..0]) == Take(s);
    assert PushAll(Take(s), item, ids[..1]) == Push(Take(s), item, "b");
    assert PushAll(Take(s), item, ids) == Push(Push(Take(s), item, "b"), item, "c");
    assert ["a"] + ["b"] == ["a", "b"] && ["a"] + ["c"] == ["a", "c"];
    assert Iterate(DETOUR_GRAPH, THREE_STEPS, 1) == Pop(DETOUR_GRAPH, THREE_STEPS, s) == PushAll(Take(s), item, ids);
    assert Take(s) == Search([item], {"a"}, []);
    DetourPushes(Take(s), item);
  }

  lemma DetourPushes(s: Search, item: Item)
    requires s == Search([item], {"a"}, []) && item == Item("a", 0, ["a"])
    ensures Push(Push(s, item, "b"), item, "c")
         == Search([item], {"a", "b", "c"}, [Item("b", 1, ["a", "b"]), Item("c", 1, ["a", "c"])])
  {
    assert ["a"] + ["b"] == ["a", "b"] && ["a"] + ["c"] == ["a", "c"];
    var b, c := Item("b", 1, ["a", "b"]), Item("c", 1, ["a", "c"]);
    assert Push(s, item, "b") == Search([item], {"a", "b"}, [b]);
    assert [b] + [c] == [b, c];
    assert {"a", "b"} + {"c"} == {"a", "b", "c"};
  }

  lemma DetourDeepens()
    ensures Iterate(DETOUR_GRAPH, THREE_STEPS, 2).visited == {"a", "b", "c", "d"}
    ensures Iterate(DETOUR_GRAPH, THREE_STEPS, 2).frontier == [Item("b", 1, ["a", "b"]), Item("d", 2, ["a", "c", "d"])]
  {
    DetourStarts();
    DetourNeighbors("c");
    assert ["a", "c"] + ["d"] == ["a", "c", "d"];
    PopOne(Iterate(DETOUR_GRAPH, THREE_STEPS, 1), [Item("b", 1, ["a", "b"])], Item("c", 1, ["a", "c"]), "d");
  }

  lemma DetourReachesLimit()
    ensures Iterate(DETOUR_GRAPH, THREE_STEPS, 3).visited == {"a", "b", "c", "d", "e"}
    ensures Iterate(DETOUR_GRAPH, THREE_STEPS, 3).frontier == [Item("b", 1, ["a", "b"]), Item("e", 3, ["a", "c", "d", "e"])]
  {
    DetourDeepens();
    DetourNeighbors("d");
    assert ["a", "c", "d"] + ["e"] == ["a", "c", "d", "e"];
    PopOne(Iterate(DETOUR_GRAPH, THREE_STEPS, 2), [Item("b", 1, ["a", "b"])], Item("d", 2, ["a", "c", "d"]), "e");
  }

  /** Following the stack, e is found three steps away, at the limit, and f is never looked for. */
  lemma DetourCutsOff()
    ensures Traversal(DETOUR_GRAPH, THREE_STEPS).visited == {"a", "b", "c", "d", "e"}
    ensures Traversal(DETOUR_GRAPH, THREE_STEPS).frontier == []
  {
    DetourReachesLimit();
    DetourEnds(Iterate(DETOUR_GRAPH, THREE_STEPS, 3));
    IteratePlusTwo(DETOUR_GRAPH, THREE_STEPS, 3);
    DetourSize();
    TraversalFrom(DETOUR_GRAPH, THREE_STEPS, 5);
  }

  lemma DetourSize()
    ensures |DETOUR_GRAPH.nodes| == 6
  {
  }

  lemma IteratePlusTwo(g: Graph, q: Query, n: nat)
    ensures Iterate(g, q, n + 2) == Pop(g, q, Pop(g, q, Iterate(g, q, n)))
  {
  }

  lemma DetourEnds(s: Search)
    requires s.frontier == [Item("b", 1, ["a", "b"]), Item("e", 3, ["a", "c", "d", "e"])]
    requires s.visited == {"a", "b", "c", "d", "e"}
    ensures var last := Pop(DETOUR_GRAPH, THREE_STEPS, Pop(DETOUR_GRAPH, THREE_STEPS, s));
      last.visited == s.visited && last.frontier == []
  {
    var t := Pop(DETOUR_GRAPH, THREE_STEPS, s);
    assert t == Take(s);
    DetourNeighbors("b");
    var ids := ["e"];
    assert ids[..0] == [];
    assert PushAll(Take(t), t.frontier[0], ids[..0]) == Take(t);
  }

  /** A node three steps from the start is missing from a traversal three deep. */
  lemma LimitedDepthMissesNodes()
    ensures Sound(DETOUR_GRAPH) && THREE_STEPS.start in DETOUR_GRAPH.nodes
    ensures IsRoute(DETOUR_GRAPH, THREE_STEPS, "f", ["a", "b", "e", "f"])
    ensures !Holds(Traversal(DETOUR_GRAPH, THREE_STEPS).results, "f")
  {
    assert Matches(DETOUR[0], "a", None, Outgoing) && DETOUR[0].target == "b";
    assert Matches(DETOUR[4], "b", None, Outgoing) && DETOUR[4].target == "e";
    assert Matches(DETOUR[5], "e", None, Outgoing) && DETOUR[5].target == "f";
    assert Step(DETOUR_GRAPH, THREE_STEPS, "a", "b") && Step(DETOUR_GRAPH, THREE_STEPS, "b", "e");
    assert Step(DETOUR_GRAPH, THREE_STEPS, "e", "f");
    DetourMisses();
  }

  lemma DetourMisses()
    ensures Sound(DETOUR_GRAPH) && !Holds(Traversal(DETOUR_GRAPH, THREE_STEPS).results, "f")
  {
    TraversalIsDone(DETOUR_GRAPH, THREE_STEPS);
    DetourCutsOff();
    NotVisited(Traversal(DETOUR_GRAPH, THREE_STEPS), "f");
  }

  lemma NotVisited(s: Search, id: string)
    requires Accounted(s) && id !in s.visited
    ensures !Holds(s.results, id)
  {
  }

  // ---------------------------------------------------------------- vector hits and their neighborhood

  ghost predicate NearHits(g: Graph, hits: seq<string>, hops: int, relationship: Option<string>, id: string) {
    exists h :: 0 <= h < |hits| && Holds(Traversal(g, Query(hits[h], hops, relationship, Outgoing)).results, id)
  }

  /** The ids of some items, in their order. */
  function IdsOf(items: seq<Item>): seq<string> {
    seq(|items|, i requires 0 <= i < |items| => items[i].id)
  }

  /** What the traversals from the hits find, one after the other. */
  function FoundFrom(g: Graph, hits: seq<string>, hops: int, relationship: Option<string>): seq<string> {
    if hits == [] then []
    else
      FoundFrom(g, hits[..|hits| - 1], hops, relationship)
      + IdsOf(Traversal(g, Query(hits[|hits| - 1], hops, relationship, Outgoing)).results)
  }

  /** The first occurrences of ids that are not known already, in their order. */
  function FirstTimes(ids: seq<string>, known: seq<string>): seq<string> {
    if ids == [] then []
    else
      var before, last := FirstTimes(ids[..|ids| - 1], known), ids[|ids| - 1];
      if last in known || last in before then before else before + [last]
  }

  lemma {:induction false} FirstTimesExactly(ids: seq<string>, known: seq<string>)
    ensures DistinctNodes(FirstTimes(ids, known))
    ensures forall id :: id in FirstTimes(ids, known) <==> id in ids && id !in known
    decreases |ids|
  {
    if ids != [] {
      var n := |ids| - 1;
      FirstTimesExactly(ids[..n], known);
      assert ids == ids[..n] + [ids[n]];
    }
  }

  /** What is listed of a first part stays listed first. */
  lemma {:induction false} FirstTimesInOrder(ids: seq<string>, known: seq<string>, m: nat)
    requires m <= |ids|
    ensures FirstTimes(ids[..m], known) <= FirstTimes(ids, known)
    decreases |ids|
  {
    if m < |ids| {
      FirstTimesInOrder(ids[..|ids| - 1], known, m);
      assert ids[..|ids| - 1][..m] == ids[..m];
    } else {
      assert ids[..m] == ids;
    }
  }

  lemma FirstTimesSnoc(ids: seq<string>, id: string, known: seq<string>)
    ensures FirstTimes(ids + [id], known) ==
            if id in known || id in FirstTimes(ids, known) then FirstTimes(ids, known) else FirstTimes(ids, known) + [id]
  {
    assert (ids + [id])[..|ids|] == ids;
  }

  lemma IdsOfExactly(items: seq<Item>, id: string)
    ensures id in IdsOf(items) <==> Holds(items, id)
  {
    if i :| 0 <= i < |items| && items[i].id == id {
      assert IdsOf(items)[i] == id;
    }
  }

  lemma IdsOfSnoc(before: seq<string>, items: seq<Item>, i: nat)
    requires i < |items|
    ensures before + IdsOf(items[..i + 1]) == before + IdsOf(items[..i]) + [items[i].id]
  {
    assert IdsOf(items[..i + 1]) == IdsOf(items[..i]) + [items[i].id];
  }

  lemma {:induction false} FoundFromExactly(g: Graph, hits: seq<string>, hops: int, relationship: Option<string>, id: string)
    ensures id in FoundFrom(g, hits, hops, relationship) <==> NearHits(g, hits, hops, relationship, id)
  {
    if hits != [] {
      var n := |hits| - 1;
      FoundFromExactly(g, hits[..n], hops, relationship, id);
      NearOneMore(g, hits, n, hops, relationship, id);
      assert hits[..n + 1] == hits;
      IdsOfExactly(Traversal(g, Query(hits[n], hops, relationship, Outgoing)).results, id);
    }
  }

  lemma NearOneMore(g: Graph, hits: seq<string>, i: nat, hops: int, relationship: Option<string>, id: string)
    requires i < |hits|
    ensures NearHits(g, hits[..i + 1], hops, relationship, id) <==>
      (NearHits(g, hits[..i], hops, relationship, id)
       || Holds(Traversal(g, Query(hits[i], hops, relationship, Outgoing)).results, id))
  {
    var now := hits[..i + 1];
    assert now[i] == hits[i] && forall h :: 0 <= h < i ==> now[h] == hits[..i][h];
  }

  /** The context so far lists what was found so far, and the nodes seen are the hits and those listed. */
  ghost predicate Listing(seen: set<string>, context: seq<string>, found: seq<string>, hits: seq<string>) {
    context == FirstTimes(found, hits) && forall id :: id in seen <==> id in hits || id in context
  }

  lemma ListOne(seen: set<string>, context: seq<string>, found: seq<string>, hits: seq<string>, id: string)
    requires Listing(seen, context, found, hits)
    ensures id in seen ==> Listing(seen, context, found + [id], hits)
    ensures id !in seen ==> Listing(seen + {id}, context + [id], found + [id], hits)
  {
    FirstTimesSnoc(found, id, hits);
  }

  /** The nodes around the hits: none twice, no hit among them, nothing else missing, in the order they are first found. */
  method GraphContext(g: Graph, hits: seq<string>, hops: int, relationship: Option<string>) returns (r: Result<seq<string>, Error>)
    requires Sound(g) && forall h :: 0 <= h < |hits| ==> hits[h] in g.nodes
    ensures r.Err? <==> hops < 0 && hits != []
    ensures r.Ok? ==> DistinctNodes(r.value)
    ensures r.Ok? ==> forall id :: id in r.value <==> id !in hits && NearHits(g, hits, hops, relationship, id)
    ensures r.Ok? ==> r.value == FirstTimes(FoundFrom(g, hits, hops, relationship), hits)
  {
    var seen := set h | 0 <= h < |hits| :: hits[h];
    var context: seq<string> := [];
    var i := 0;
    while i < |hits|
      invariant 0 <= i <= |hits| && (i > 0 ==> hops >= 0)
      invariant Listing(seen, context, FoundFrom(g, hits[..i], hops, relationship), hits)
    {
      var found := Traverse(g, Query(hits[i], hops, relationship, Outgoing));
      if found.Err? {
        return Err(found.error);
      }
      assert hits[..i + 1][..i] == hits[..i];
      seen, context := AddUnseen(hits, FoundFrom(g, hits[..i], hops, relationship), found.value, seen, context);
      i := i + 1;
    }
    assert hits[..|hits|] == hits;
    ContextIs(g, hits, hops, relationship, context);
    r := Ok(context);
  }

  lemma ContextIs(g: Graph, hits: seq<string>, hops: int, relationship: Option<string>, context: seq<string>)
    requires context == FirstTimes(FoundFrom(g, hits, hops, relationship), hits)
    ensures DistinctNodes(context)
    ensures forall id :: id in context <==> id !in hits && NearHits(g, hits, hops, relationship, id)
  {
    FirstTimesExactly(FoundFrom(g, hits, hops, relationship), hits);
    forall id
      ensures id in context <==> id !in hits && NearHits(g, hits, hops, relationship, id)
    {
      FoundFromExactly(g, hits, hops, relationship, id);
    }
  }

  method AddUnseen(ghost hits: seq<string>, ghost before: seq<string>, items: seq<Item>, seen: set<string>, context: seq<string>)
    returns (seen': set<string>, context': seq<string>)
    requires Listing(seen, context, before, hits)
    ensures Listing(seen', context', before + IdsOf(items), hits)
  {
    seen', context' := seen, context;
    var i := 0;
    assert before + IdsOf(items[..0]) == before;
    while i < |items|
      invariant 0 <= i <= |items| && Listing(seen', context', before + IdsOf(items[..i]), hits)
    {
      IdsOfSnoc(before, items, i);
      ListOne(seen', context', before + IdsOf(items[..i]), hits, items[i].id);
      if items[i].id !in seen' {
        seen' := seen' + {items[i].id};
        context' := context' + [items[i].id];
      }
      i := i + 1;
    }
    assert items[..|items|] == items;
  }
}
