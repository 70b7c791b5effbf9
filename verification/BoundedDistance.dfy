/**
How far a limited traversal sees (crates/scs-store/src/graph.rs:507-544).

A node is expanded at the depth at which the stack first met it, and that depends on the order in which the
edges are stored.  What the search can do in any order is decided by chordless routes: the stack may follow a
route exactly when no node of it leads directly to a later one.
*/
module BoundedDistance {
  import opened Traverse

  // ---------------------------------------------------------------- routes

  /** No node of the path leads to a node that the path reaches only later. */
  ghost predicate Chordless(g: Graph, q: Query, path: seq<string>) {
    forall i, j :: 0 <= i < j < |path| && i + 1 < j ==> !Step(g, q, path[i], path[j])
  }

  ghost predicate Within(g: Graph, q: Query, id: string, nodes: int) {
    exists path :: IsRoute(g, q, id, path) && |path| <= nodes
  }

  /** A chordless route that uses up the limit and ends at a node which a shorter route reaches too. */
  ghost predicate Detour(g: Graph, q: Query, path: seq<string>) {
    && |path| == q.maxDepth + 1 > 0
    && IsRoute(g, q, path[|path| - 1], path)
    && DistinctNodes(path) && Chordless(g, q, path)
    && Within(g, q, path[|path| - 1], q.maxDepth)
  }

  ghost predicate NoDetour(g: Graph, q: Query) {
    forall path :: !Detour(g, q, path)
  }

  /** The node is returned above the depth limit, so its neighbors are looked at. */
  ghost predicate LookedBeyond(q: Query, results: seq<Item>, id: string) {
    exists i :: 0 <= i < |results| && results[i].id == id && results[i].depth < q.maxDepth
  }

  ghost predicate ExpandsAllNearer(g: Graph, q: Query) {
    forall id :: Within(g, q, id, q.maxDepth) ==> LookedBeyond(q, Traversal(g, q).results, id)
  }

  /** The result is what bounded distance promises: every node at most `maxDepth` steps away, and no other. */
  ghost predicate IsBall(g: Graph, q: Query, results: seq<Item>) {
    forall id :: Holds(results, id) <==> Within(g, q, id, q.maxDepth + 1)
  }

  lemma WithinExtends(g: Graph, q: Query, u: string, v: string, nodes: int)
    requires Within(g, q, u, nodes) && Step(g, q, u, v)
    ensures Within(g, q, v, nodes + 1)
  {
    var path :| IsRoute(g, q, u, path) && |path| <= nodes;
    var longer := path + [v];
    forall i, j | 0 <= i < j < |longer| && j == i + 1
      ensures Step(g, q, longer[i], longer[j])
    {
      if j < |path| {
        assert Step(g, q, path[i], path[j]);
      }
    }
    assert IsRoute(g, q, v, longer);
  }

  /** Any route can be shortened to a simple one. */
  lemma {:induction false} SimpleRoute(g: Graph, q: Query, id: string, path: seq<string>) returns (simple: seq<string>)
    requires IsRoute(g, q, id, path)
    ensures IsRoute(g, q, id, simple) && DistinctNodes(simple) && |simple| <= |path|
    decreases |path|
  {
    simple := path;
    if i, j :| 0 <= i < j < |path| && path[i] == path[j] {
      var cut := path[..i] + path[j..];
      forall k, l | 0 <= k < l < |cut| && l == k + 1
        ensures Step(g, q, cut[k], cut[l])
      {
        if l < i {
          assert Step(g, q, path[k], path[l]);
        } else if l == i {
          assert Step(g, q, path[k], path[i]);
        } else {
          assert Step(g, q, path[k + (j - i)], path[l + (j - i)]);
        }
      }
      assert cut[0] == path[0] && cut[|cut| - 1] == path[|path| - 1];
      simple := SimpleRoute(g, q, id, cut);
    }
  }

  ghost predicate SimpleWithin(g: Graph, q: Query, id: string, path: seq<string>) {
    IsRoute(g, q, id, path) && DistinctNodes(path) && |path| <= q.maxDepth + 1
  }

  /** All simple routes within the limit that reach the same node are equally long, as in a tree or a layered graph. */
  ghost predicate EquallyLong(g: Graph, q: Query) {
    forall id, a, b :: SimpleWithin(g, q, id, a) && SimpleWithin(g, q, id, b) ==> |a| == |b|
  }

  /** Graphs in which routes cannot differ in length have no detours. */
  lemma DetourIsUneven(g: Graph, q: Query, path: seq<string>)
    requires Detour(g, q, path)
    ensures !EquallyLong(g, q)
  {
    var id := path[|path| - 1];
    var short :| IsRoute(g, q, id, short) && |short| <= q.maxDepth;
    var simple := SimpleRoute(g, q, id, short);
    assert SimpleWithin(g, q, id, simple) && SimpleWithin(g, q, id, path);
  }

  /** Neither has a limit of at most one step. */
  lemma DetourIsLong(g: Graph, q: Query, path: seq<string>)
    requires Detour(g, q, path)
    ensures q.maxDepth >= 2
  {
    assert path[0] != path[|path| - 1] || |path| == 1;
  }

  // ---------------------------------------------------------------- the path of an item is chordless

  /** The inner nodes of the path have been expanded, so nothing further down the path is their neighbor. */
  ghost predicate Rooted(g: Graph, q: Query, s: Search, item: Item) {
    && |item.path| == item.depth + 1
    && Chordless(g, q, item.path)
    && forall k :: 0 <= k < item.depth ==> LookedBeyond(q, s.results, item.path[k])
  }

  ghost predicate AllRooted(g: Graph, q: Query, s: Search) {
    && (forall i :: 0 <= i < |s.results| ==> Rooted(g, q, s, s.results[i]))
    && (forall i :: 0 <= i < |s.frontier| ==> Rooted(g, q, s, s.frontier[i]))
  }

  lemma ExpandedStays(q: Query, results: seq<Item>, more: seq<Item>, id: string)
    requires LookedBeyond(q, results, id)
    ensures LookedBeyond(q, results + more, id)
  {
    var i :| 0 <= i < |results| && results[i].id == id && results[i].depth < q.maxDepth;
    assert (results + more)[i] == results[i];
  }

  lemma RootedStays(g: Graph, q: Query, s: Search, s': Search, item: Item, last: Item)
    requires Rooted(g, q, s, item) && s'.results == s.results + [last]
    ensures Rooted(g, q, s', item)
  {
    forall k | 0 <= k < item.depth
      ensures LookedBeyond(q, s'.results, item.path[k])
    {
      ExpandedStays(q, s.results, [last], item.path[k]);
    }
  }

  lemma TakeKeepsRooted(g: Graph, q: Query, s: Search)
    requires AllRooted(g, q, s) && s.frontier != []
    ensures AllRooted(g, q, Take(s))
  {
    var n := |s.frontier| - 1;
    var last := s.frontier[n];
    forall i | 0 <= i < |s.results|
      ensures Rooted(g, q, Take(s), s.results[i])
    {
      RootedStays(g, q, s, Take(s), s.results[i], last);
    }
    forall i | 0 <= i <= n
      ensures Rooted(g, q, Take(s), s.frontier[i])
    {
      RootedStays(g, q, s, Take(s), s.frontier[i], last);
    }
  }

  /** A neighbor found now was no neighbor of any node expanded before. */
  ghost predicate Fresh(g: Graph, q: Query, from: Item, v: string) {
    forall k :: 0 <= k < from.depth && k < |from.path| ==> !Step(g, q, from.path[k], v)
  }

  lemma PushedIsRooted(g: Graph, q: Query, s: Search, from: Item, v: string)
    requires Rooted(g, q, s, from) && Fresh(g, q, from, v) && from.path[from.depth] == from.id
    requires LookedBeyond(q, s.results, from.id)
    ensures Rooted(g, q, s, Item(v, from.depth + 1, from.path + [v]))
  {
    var path := from.path + [v];
    forall i, j | 0 <= i < j < |path| && i + 1 < j
      ensures !Step(g, q, path[i], path[j])
    {
      if j == from.depth + 1 {
        assert path[i] == from.path[i];
      }
    }
  }

  lemma {:induction false} PushAllKeepsRooted(g: Graph, q: Query, s: Search, from: Item, ids: seq<string>)
    requires AllRooted(g, q, s) && Rooted(g, q, s, from) && from.path[from.depth] == from.id
    requires LookedBeyond(q, s.results, from.id)
    requires forall v :: v in ids && v !in s.visited ==> Fresh(g, q, from, v)
    ensures AllRooted(g, q, PushAll(s, from, ids))
    ensures s.visited <= PushAll(s, from, ids).visited
  {
    if ids != [] {
      var n := |ids| - 1;
      PushAllKeepsRooted(g, q, s, from, ids[..n]);
      PushAllResults(s, from, ids[..n]);
      var now := PushAll(s, from, ids[..n]);
      if ids[n] !in now.visited {
        PushedIsRooted(g, q, now, from, ids[n]);
      }
    }
  }

  /** An unvisited node is fresh: every inner node of the path has had its neighbors visited. */
  lemma UnvisitedIsFresh(g: Graph, q: Query, s: Search, from: Item, v: string)
    requires Searching(g, q, s) && Rooted(g, q, s, from) && v !in s.visited
    ensures Fresh(g, q, from, v)
  {
    forall k | 0 <= k < from.depth
      ensures !Step(g, q, from.path[k], v)
    {
      var u := from.path[k];
      var i :| 0 <= i < |s.results| && s.results[i].id == u && s.results[i].depth < q.maxDepth;
      assert Traverse.Expanded(g, q, s, s.results[i]);
      NeighborsExactly(g, q, u, v);
    }
  }

  lemma PopKeepsRooted(g: Graph, q: Query, s: Search)
    requires Sound(g) && Searching(g, q, s) && AllRooted(g, q, s)
    ensures AllRooted(g, q, Pop(g, q, s))
  {
    if s.frontier != [] {
      var n := |s.frontier| - 1;
      var item := s.frontier[n];
      TakeKeepsRooted(g, q, s);
      if item.depth != q.maxDepth {
        var ids, taken := Neighbors(g, q, item.id), Take(s);
        assert Good(g, q, item);
        RootedStays(g, q, s, taken, item, item);
        assert taken.results[|s.results|] == item;
        forall v | v in ids && v !in taken.visited
          ensures Fresh(g, q, item, v)
        {
          UnvisitedIsFresh(g, q, s, item, v);
        }
        PushAllKeepsRooted(g, q, taken, item, ids);
      }
    }
  }

  lemma {:induction false} IterateIsRooted(g: Graph, q: Query, n: nat)
    requires Sound(g) && q.start in g.nodes && q.maxDepth >= 0
    ensures AllRooted(g, q, Iterate(g, q, n))
  {
    if n > 0 {
      IterateIsRooted(g, q, n - 1);
      IterateIsSearching(g, q, n - 1);
      PopKeepsRooted(g, q, Iterate(g, q, n - 1));
    }
  }

  /** Every item comes with a chordless route whose inner nodes were all expanded. */
  lemma ItemsAreRooted(g: Graph, q: Query, item: Item)
    requires Sound(g) && q.start in g.nodes && q.maxDepth >= 0 && item in Traversal(g, q).results
    ensures Good(g, q, item) && Rooted(g, q, Traversal(g, q), item)
  {
    TraversalIsDone(g, q);
    IterateIsRooted(g, q, |g.nodes|);
  }

  // ---------------------------------------------------------------- without detours the limit is a distance

  lemma ReturnedAndExpanded(g: Graph, q: Query, id: string)
    requires Sound(g) && q.start in g.nodes && q.maxDepth >= 0 && NoDetour(g, q)
    requires Holds(Traversal(g, q).results, id) && Within(g, q, id, q.maxDepth)
    ensures LookedBeyond(q, Traversal(g, q).results, id)
  {
    var results := Traversal(g, q).results;
    var i :| 0 <= i < |results| && results[i].id == id;
    ItemsAreRooted(g, q, results[i]);
    if results[i].depth == q.maxDepth {
      assert Detour(g, q, results[i].path);
    }
  }

  lemma ExpandedShowsNeighbors(g: Graph, q: Query, u: string, v: string)
    requires Sound(g) && q.start in g.nodes && q.maxDepth >= 0
    requires LookedBeyond(q, Traversal(g, q).results, u) && Step(g, q, u, v)
    ensures Holds(Traversal(g, q).results, v)
  {
    TraversalIsDone(g, q);
    var s := Traversal(g, q);
    var i :| 0 <= i < |s.results| && s.results[i].id == u && s.results[i].depth < q.maxDepth;
    assert Traverse.Expanded(g, q, s, s.results[i]);
    NeighborsExactly(g, q, u, v);
    assert v in s.visited && !Holds(s.frontier, v);
  }

  lemma {:induction false} RouteIsReturned(g: Graph, q: Query, path: seq<string>, id: string)
    requires Sound(g) && q.start in g.nodes && q.maxDepth >= 0 && NoDetour(g, q)
    requires IsRoute(g, q, id, path) && |path| <= q.maxDepth + 1
    ensures Holds(Traversal(g, q).results, id)
    decreases |path|
  {
    if |path| == 1 {
      TraversalPaths(g, q);
    } else {
      var n := |path| - 1;
      assert IsRoute(g, q, path[n - 1], path[..n]);
      RouteIsReturned(g, q, path[..n], path[n - 1]);
      ReturnedAndExpanded(g, q, path[n - 1]);
      assert Step(g, q, path[n - 1], path[n]);
      ExpandedShowsNeighbors(g, q, path[n - 1], id);
    }
  }

  /** Without detours the traversal is bounded distance: it returns exactly the nodes within the limit. */
  lemma BallWithoutDetours(g: Graph, q: Query)
    requires Sound(g) && q.start in g.nodes && q.maxDepth >= 0 && NoDetour(g, q)
    ensures IsBall(g, q, Traversal(g, q).results)
    ensures ExpandsAllNearer(g, q)
  {
    var results := Traversal(g, q).results;
    forall id
      ensures Holds(results, id) <==> Within(g, q, id, q.maxDepth + 1)
      ensures Within(g, q, id, q.maxDepth) ==> LookedBeyond(q, results, id)
    {
      if Holds(results, id) {
        var i :| 0 <= i < |results| && results[i].id == id;
        ItemsAreRooted(g, q, results[i]);
        assert IsRoute(g, q, id, results[i].path);
      }
      if path :| IsRoute(g, q, id, path) && |path| <= q.maxDepth + 1 {
        RouteIsReturned(g, q, path, id);
      }
      if Within(g, q, id, q.maxDepth) {
        var path :| IsRoute(g, q, id, path) && |path| <= q.maxDepth;
        RouteIsReturned(g, q, path, id);
        ReturnedAndExpanded(g, q, id);
      }
    }
  }

  // ---------------------------------------------------------------- in whatever order the edges are stored

  ghost predicate SameEdges(g: Graph, h: Graph) {
    h.nodes == g.nodes && multiset(h.edges) == multiset(g.edges)
  }

  lemma OrderKeepsSteps(g: Graph, h: Graph, q: Query, u: string, v: string)
    requires SameEdges(g, h)
    ensures Step(g, q, u, v) ==> Step(h, q, u, v)
  {
    if i :| 0 <= i < |g.edges| && Matches(g.edges[i], u, q.relationship, q.direction) && v == FarEnd(g.edges[i], u, q.direction) {
      assert g.edges[i] in multiset(h.edges);
      var j :| 0 <= j < |h.edges| && h.edges[j] == g.edges[i];
    }
  }

  lemma OrderKeepsWalks(g: Graph, h: Graph, q: Query, path: seq<string>)
    requires SameEdges(g, h) && Walk(g, q, path)
    ensures Walk(h, q, path)
  {
    forall i, j | 0 <= i < j < |path| && j == i + 1
      ensures Step(h, q, path[i], path[j])
    {
      OrderKeepsSteps(g, h, q, path[i], path[j]);
    }
  }

  lemma OrderKeepsDetours(g: Graph, h: Graph, q: Query, path: seq<string>)
    requires SameEdges(g, h) && Detour(g, q, path)
    ensures Detour(h, q, path)
  {
    OrderKeepsWalks(g, h, q, path);
    var id := path[|path| - 1];
    var short :| IsRoute(g, q, id, short) && |short| <= q.maxDepth;
    OrderKeepsWalks(g, h, q, short);
    assert IsRoute(h, q, id, short);
    forall i, j | 0 <= i < j < |path| && i + 1 < j
      ensures !Step(h, q, path[i], path[j])
    {
      if Step(h, q, path[i], path[j]) {
        OrderKeepsSteps(h, g, q, path[i], path[j]);
      }
    }
  }

  lemma OrderKeepsSound(g: Graph, h: Graph)
    requires SameEdges(g, h) && Sound(g)
    ensures Sound(h)
  {
    forall i | 0 <= i < |h.edges|
      ensures h.edges[i].source in h.nodes && h.edges[i].target in h.nodes
    {
      assert h.edges[i] in multiset(g.edges);
      var j :| 0 <= j < |g.edges| && g.edges[j] == h.edges[i];
    }
  }

  // ---------------------------------------------------------------- an order in which the stack follows a route

  /** The edge joins two consecutive nodes of the path. */
  ghost predicate Joins(e: Edge, path: seq<string>) {
    exists i, j :: 0 <= i < j < |path| && j == i + 1 &&
      ((e.source == path[i] && e.target == path[j]) || (e.source == path[j] && e.target == path[i]))
  }

  ghost function Select(edges: seq<Edge>, path: seq<string>, joining: bool): (r: seq<Edge>)
    ensures forall e :: e in r ==> (Joins(e, path) <==> joining)
  {
    if edges == [] then []
    else
      var last := edges[|edges| - 1];
      Select(edges[..|edges| - 1], path, joining) + (if Joins(last, path) == joining then [last] else [])
  }

  lemma SelectOneMore(edges: seq<Edge>, path: seq<string>, last: Edge, joining: bool)
    ensures Select(edges + [last], path, joining)
         == Select(edges, path, joining) + (if Joins(last, path) == joining then [last] else [])
  {
    assert (edges + [last])[..|edges|] == edges;
  }

  lemma {:induction false} SelectKeepsAll(edges: seq<Edge>, path: seq<string>)
    ensures multiset(Select(edges, path, false)) + multiset(Select(edges, path, true)) == multiset(edges)
  {
    if edges != [] {
      var init, last := edges[..|edges| - 1], edges[|edges| - 1];
      assert edges == init + [last];
      SelectKeepsAll(init, path);
      SelectOneMore(init, path, last, false);
      SelectOneMore(init, path, last, true);
      AddLast(Select(init, path, false), Select(init, path, true), init, last, Joins(last, path));
    }
  }

  /** One more edge lands in exactly one part. */
  lemma AddLast<T>(a: seq<T>, b: seq<T>, all: seq<T>, last: T, second: bool)
    requires multiset(a) + multiset(b) == multiset(all)
    ensures var a', b' := a + (if second then [] else [last]), b + (if second then [last] else []);
      multiset(a') + multiset(b') == multiset(all + [last])
  {
    if second {
      assert a + [] == a;
    } else {
      assert b + [] == b;
    }
  }

  /** The same graph with the edges of the path stored last. */
  ghost function Towards(g: Graph, path: seq<string>): (h: Graph)
    ensures SameEdges(g, h)
  {
    SelectKeepsAll(g.edges, path);
    g.(edges := Select(g.edges, path, false) + Select(g.edges, path, true))
  }

  lemma {:induction false} NeighborsConcat(a: seq<Edge>, b: seq<Edge>, q: Query, id: string)
    ensures NeighborsIn(a + b, id, q.relationship, q.direction)
         == NeighborsIn(a, id, q.relationship, q.direction) + NeighborsIn(b, id, q.relationship, q.direction)
  {
    if b == [] {
      assert a + b == a;
    } else {
      NeighborsConcat(a, b[..|b| - 1], q, id);
      assert (a + b)[..|a + b| - 1] == a + b[..|b| - 1];
    }
  }

  /** Seen from a node of the path, an edge of the path leads one node on or one node back. */
  lemma JoiningLeadsAlong(e: Edge, q: Query, path: seq<string>, k: nat)
    requires DistinctNodes(path) && k < |path| && Joins(e, path) && Matches(e, path[k], q.relationship, q.direction)
    ensures || (k + 1 < |path| && FarEnd(e, path[k], q.direction) == path[k + 1])
            || (k > 0 && FarEnd(e, path[k], q.direction) == path[k - 1])
  {
  }

  lemma OtherEdgesLeadAside(e: Edge, q: Query, path: seq<string>, k: nat)
    requires k + 1 < |path| && !Joins(e, path) && Matches(e, path[k], q.relationship, q.direction)
    ensures FarEnd(e, path[k], q.direction) != path[k + 1]
  {
  }

  lemma NeighborsByEdge(edges: seq<Edge>, q: Query, u: string, v: string) returns (e: Edge)
    requires v in NeighborsIn(edges, u, q.relationship, q.direction)
    ensures e in edges && Matches(e, u, q.relationship, q.direction) && v == FarEnd(e, u, q.direction)
  {
    NeighborsInExactly(edges, u, v, q.relationship, q.direction);
    var i :| 0 <= i < |edges| && Matches(edges[i], u, q.relationship, q.direction) && v == FarEnd(edges[i], u, q.direction);
    e := edges[i];
  }

  /** Neighbors pushed for nodes other than the given ones leave those unvisited. */
  lemma {:induction false} PushAllSpares(s: Search, from: Item, ids: seq<string>, v: string)
    ensures v in PushAll(s, from, ids).visited <==> v in s.visited || v in ids
  {
    if ids != [] {
      PushAllSpares(s, from, ids[..|ids| - 1], v);
      assert ids == ids[..|ids| - 1] + [ids[|ids| - 1]];
    }
  }

  lemma {:induction false} PushAllConcat(s: Search, from: Item, a: seq<string>, b: seq<string>)
    ensures PushAll(s, from, a + b) == PushAll(PushAll(s, from, a), from, b)
  {
    if b == [] {
      assert a + b == a;
    } else {
      PushAllConcat(s, from, a, b[..|b| - 1]);
      assert (a + b)[..|a + b| - 1] == a + b[..|b| - 1];
    }
  }

  predicate OnTop(s: Search, item: Item) {
    s.frontier != [] && s.frontier[|s.frontier| - 1] == item
  }

  /** Of neighbors that are all visited but one, that one ends on top of the stack. */
  lemma {:induction false} LastOneOnTop(s: Search, from: Item, ids: seq<string>, v: string)
    requires v in ids && v !in s.visited && forall u :: u in ids ==> u == v || u in s.visited
    ensures OnTop(PushAll(s, from, ids), Item(v, from.depth + 1, from.path + [v]))
  {
    var n := |ids| - 1;
    if v in ids[..n] {
      LastOneOnTop(s, from, ids[..n], v);
      PushAllSpares(s, from, ids[..n], ids[n]);
    } else {
      PushAllSpares(s, from, ids[..n], v);
    }
  }

  /** After k rounds the k-th node of the path is on top, and the nodes after it have not been met. */
  ghost predicate Following(s: Search, path: seq<string>, k: nat) {
    && k < |path|
    && OnTop(s, Item(path[k], k, path[..k + 1]))
    && MetUpTo(s, path, k + 1)
  }

  ghost predicate Followable(h: Graph, q: Query, path: seq<string>) {
    && |path| == q.maxDepth + 1 > 0
    && IsRoute(h, q, path[|path| - 1], path)
    && DistinctNodes(path) && Chordless(h, q, path)
  }

  /** The neighbors pushed first, over edges that are not on the path. */
  ghost function Aside(g: Graph, q: Query, path: seq<string>, u: string): seq<string> {
    NeighborsIn(Select(g.edges, path, false), u, q.relationship, q.direction)
  }

  /** The neighbors pushed last, over edges of the path. */
  ghost function Along(g: Graph, q: Query, path: seq<string>, u: string): seq<string> {
    NeighborsIn(Select(g.edges, path, true), u, q.relationship, q.direction)
  }

  lemma AsideIsStep(g: Graph, q: Query, path: seq<string>, u: string, v: string)
    requires v in Aside(g, q, path, u)
    ensures Step(Towards(g, path), q, u, v)
  {
    NeighborsConcat(Select(g.edges, path, false), Select(g.edges, path, true), q, u);
    NeighborsExactly(Towards(g, path), q, u, v);
  }

  lemma AsideNeighbors(g: Graph, q: Query, path: seq<string>, k: nat, v: string)
    requires Chordless(Towards(g, path), q, path) && k + 1 < |path|
    requires v in Aside(g, q, path, path[k])
    ensures forall j :: k < j < |path| ==> path[j] != v
  {
    var e := NeighborsByEdge(Select(g.edges, path, false), q, path[k], v);
    OtherEdgesLeadAside(e, q, path, k);
    AsideIsStep(g, q, path, path[k], v);
  }

  lemma AlongNeighbors(g: Graph, q: Query, path: seq<string>, k: nat)
    requires Followable(Towards(g, path), q, path) && k + 1 < |path|
    ensures var along := Along(g, q, path, path[k]);
            path[k + 1] in along && forall v :: v in along ==> v == path[k + 1] || (k > 0 && v == path[k - 1])
  {
    var h := Towards(g, path);
    var last, aside := Select(g.edges, path, true), Select(g.edges, path, false);
    var along := Along(g, q, path, path[k]);
    assert Step(h, q, path[k], path[k + 1]);
    NeighborsExactly(h, q, path[k], path[k + 1]);
    NeighborsConcat(aside, last, q, path[k]);
    if path[k + 1] in Aside(g, q, path, path[k]) {
      AsideNeighbors(g, q, path, k, path[k + 1]);
    }
    forall v | v in along
      ensures v == path[k + 1] || (k > 0 && v == path[k - 1])
    {
      var e := NeighborsByEdge(last, q, path[k], v);
      JoiningLeadsAlong(e, q, path, k);
    }
  }

  /** Exactly the first n nodes of the path have been met. */
  ghost predicate MetUpTo(s: Search, path: seq<string>, n: int) {
    forall j :: 0 <= j < |path| ==> (path[j] in s.visited <==> j < n)
  }

  /** The neighbors pushed first leave the path ahead unvisited. */
  lemma AsidePushed(g: Graph, q: Query, path: seq<string>, s: Search, from: Item, k: nat)
    requires Followable(Towards(g, path), q, path) && k + 1 < |path| && MetUpTo(s, path, k + 1)
    ensures MetUpTo(PushAll(s, from, Aside(g, q, path, path[k])), path, k + 1)
  {
    var aside := Aside(g, q, path, path[k]);
    forall j | 0 <= j < |path|
      ensures path[j] in PushAll(s, from, aside).visited <==> j < k + 1
    {
      PushAllSpares(s, from, aside, path[j]);
      if path[j] in aside {
        AsideNeighbors(g, q, path, k, path[j]);
      }
    }
  }

  /** Those pushed last put the next node of the path on top. */
  lemma AlongPushed(g: Graph, q: Query, path: seq<string>, s: Search, from: Item, k: nat)
    requires Followable(Towards(g, path), q, path) && k + 1 < |path| && MetUpTo(s, path, k + 1)
    requires from == Item(path[k], k, path[..k + 1])
    ensures Following(PushAll(s, from, Along(g, q, path, path[k])), path, k + 1)
  {
    var along := Along(g, q, path, path[k]);
    AlongNeighbors(g, q, path, k);
    LastOneOnTop(s, from, along, path[k + 1]);
    assert path[..k + 1] + [path[k + 1]] == path[..k + 2];
    forall j | 0 <= j < |path|
      ensures path[j] in PushAll(s, from, along).visited <==> j < k + 2
    {
      PushAllSpares(s, from, along, path[j]);
    }
  }

  lemma PopFollows(g: Graph, q: Query, path: seq<string>, s: Search, k: nat)
    requires Followable(Towards(g, path), q, path) && k + 1 < |path| && Following(s, path, k)
    ensures Following(Pop(Towards(g, path), q, s), path, k + 1)
  {
    var from := s.frontier[|s.frontier| - 1];
    var aside, along := Aside(g, q, path, path[k]), Along(g, q, path, path[k]);
    NeighborsConcat(Select(g.edges, path, false), Select(g.edges, path, true), q, path[k]);
    PushAllConcat(Take(s), from, aside, along);
    AsidePushed(g, q, path, Take(s), from, k);
    AlongPushed(g, q, path, PushAll(Take(s), from, aside), from, k);
  }

  lemma {:induction false} SearchFollows(g: Graph, q: Query, path: seq<string>, k: nat)
    requires Followable(Towards(g, path), q, path) && k < |path|
    ensures Following(Iterate(Towards(g, path), q, k), path, k)
  {
    if k == 0 {
      assert path[..1] == [path[0]];
    } else {
      SearchFollows(g, q, path, k - 1);
      PopFollows(g, q, path, Iterate(Towards(g, path), q, k - 1), k - 1);
    }
  }

  lemma {:induction false} ResultsGrow(g: Graph, q: Query, n: nat, m: nat)
    requires n <= m
    ensures Iterate(g, q, n).results <= Iterate(g, q, m).results
    decreases m
  {
    if n < m {
      ResultsGrow(g, q, n, m - 1);
      var s := Iterate(g, q, m - 1);
      if s.frontier != [] {
        RoundYields(g, q, s);
      }
    }
  }

  lemma {:induction false} SimplePathFits(path: seq<string>, nodes: set<string>)
    requires DistinctNodes(path) && forall k :: 0 <= k < |path| ==> path[k] in nodes
    ensures |path| <= |nodes|
  {
    if path != [] {
      var n := |path| - 1;
      SimplePathFits(path[..n], nodes - {path[n]});
    }
  }

  lemma {:induction false} RouteStays(g: Graph, q: Query, path: seq<string>, k: nat)
    requires Sound(g) && q.start in g.nodes && k < |path| && path[0] == q.start && Walk(g, q, path)
    ensures path[k] in g.nodes
  {
    if k > 0 {
      RouteStays(g, q, path, k - 1);
      StepStays(g, q, path[k - 1], path[k]);
    }
  }

  /** With the edges of a chordless route stored last, its end is returned at the depth limit. */
  lemma DetourIsTaken(g: Graph, q: Query, path: seq<string>)
    requires Sound(g) && q.start in g.nodes && Followable(Towards(g, path), q, path)
    ensures Item(path[q.maxDepth], q.maxDepth, path) in Traversal(Towards(g, path), q).results
  {
    var h := Towards(g, path);
    OrderKeepsSound(g, h);
    SearchFollows(g, q, path, q.maxDepth);
    RoundYields(h, q, Iterate(h, q, q.maxDepth));
    forall k | 0 <= k < |path|
      ensures path[k] in h.nodes
    {
      RouteStays(h, q, path, k);
    }
    SimplePathFits(path, h.nodes);
    ResultsGrow(h, q, q.maxDepth + 1, |h.nodes|);
    assert path[..q.maxDepth + 1] == path;
    var n := |Iterate(h, q, q.maxDepth).results|;
    assert Iterate(h, q, q.maxDepth + 1).results[n] == Item(path[q.maxDepth], q.maxDepth, path);
  }

  lemma ReturnedOnce(g: Graph, q: Query, item: Item)
    requires Sound(g) && q.start in g.nodes && q.maxDepth >= 0
    requires item in Traversal(g, q).results && item.depth == q.maxDepth
    ensures !LookedBeyond(q, Traversal(g, q).results, item.id)
  {
    TraversalPaths(g, q);
  }

  lemma DetourBreaksExpansion(g: Graph, q: Query, path: seq<string>)
    requires Sound(g) && q.start in g.nodes && Detour(g, q, path)
    ensures !ExpandsAllNearer(Towards(g, path), q)
  {
    var h := Towards(g, path);
    OrderKeepsDetours(g, h, q, path);
    OrderKeepsSound(g, h);
    DetourIsTaken(g, q, path);
    ReturnedOnce(h, q, Item(path[q.maxDepth], q.maxDepth, path));
  }

  /**
  The nodes nearer than the limit are all expanded, in whatever order the edges are stored, exactly when no
  chordless route of the full length ends at a node that a shorter route reaches.
  */
  lemma EveryOrderExpandsExactly(g: Graph, q: Query)
    requires Sound(g) && q.start in g.nodes && q.maxDepth >= 0
    ensures NoDetour(g, q) <==> forall h :: SameEdges(g, h) ==> ExpandsAllNearer(h, q)
  {
    if path :| Detour(g, q, path) {
      DetourBreaksExpansion(g, q, path);
    } else {
      forall h | SameEdges(g, h)
        ensures ExpandsAllNearer(h, q)
      {
        OrderKeepsSound(g, h);
        forall path
          ensures !Detour(h, q, path)
        {
          if Detour(h, q, path) {
            OrderKeepsDetours(h, g, q, path);
          }
        }
        BallWithoutDetours(h, q);
      }
    }
  }

  /** A node entered only from the end of a detour is missed in some order, although it may lie within the limit. */
  lemma MissedBehindDetour(g: Graph, q: Query, path: seq<string>, id: string)
    requires Sound(g) && q.start in g.nodes && Detour(g, q, path) && id != q.start
    requires forall u :: Step(g, q, u, id) ==> u == path[q.maxDepth]
    ensures !Holds(Traversal(Towards(g, path), q).results, id)
    ensures Step(g, q, path[q.maxDepth], id) ==> !IsBall(Towards(g, path), q, Traversal(Towards(g, path), q).results)
  {
    var h := Towards(g, path);
    if Step(g, q, path[q.maxDepth], id) {
      OrderKeepsSteps(g, h, q, path[q.maxDepth], id);
      OrderKeepsDetours(g, h, q, path);
      WithinExtends(h, q, path[q.maxDepth], id, q.maxDepth);
    }
    var w, results := path[q.maxDepth], Traversal(h, q).results;
    OrderKeepsSound(g, h);
    OrderKeepsDetours(g, h, q, path);
    DetourIsTaken(g, q, path);
    ReturnedOnce(h, q, Item(w, q.maxDepth, path));
    if i :| 0 <= i < |results| && results[i].id == id {
      var item := results[i];
      ItemsAreRooted(h, q, item);
      assert Step(h, q, item.path[item.depth - 1], item.path[item.depth]);
      OrderKeepsSteps(h, g, q, item.path[item.depth - 1], id);
    }
  }
}
