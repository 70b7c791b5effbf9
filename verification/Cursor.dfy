/**
Syntax trees, the tree cursor, and the depth-first walk that replaces recursion
(the loops of crates/scs-parser/src/parser/mod.rs and crates/scs-parser/src/parser/css.rs).

A position is the sequence of child indexes from the node the cursor was made for.
*/
module Cursor {
  datatype Tree = Tree(kind: string, text: string, children: seq<Tree>)

  type Position = seq<nat>

  predicate Within(root: Tree, p: Position)
    decreases |p|, 0
  {
    p != [] ==> Within(root, p[..|p| - 1]) && p[|p| - 1] < |At(root, p[..|p| - 1]).children|
  }

  function At(root: Tree, p: Position): Tree
    requires Within(root, p)
    decreases |p|, 1
  {
    if p == [] then root else At(root, p[..|p| - 1]).children[p[|p| - 1]]
  }

  lemma ChildOf(root: Tree, p: Position, i: nat)
    requires Within(root, p) && i < |At(root, p).children|
    ensures Within(root, p + [i]) && At(root, p + [i]) == At(root, p).children[i]
  {
  }

  // ---------------------------------------------------------------- the recursive walk

  /** The positions of a subtree in pre-order, not looking below nodes that are not entered. */
  function Walk(t: Tree, at: Position, enter: Tree -> bool): seq<Position>
    decreases t, |t.children| + 1
  {
    [at] + if enter(t) then WalkFrom(t, at, 0, enter) else []
  }

  function WalkFrom(t: Tree, at: Position, i: nat, enter: Tree -> bool): seq<Position>
    requires i <= |t.children|
    decreases t, |t.children| - i
  {
    if i == |t.children| then [] else Walk(t.children[i], at + [i], enter) + WalkFrom(t, at, i + 1, enter)
  }

  /** What recursion computes: visit a node, then, unless it is not entered, its children in order. */
  function Recurse<S>(t: Tree, s: S, enter: Tree -> bool, visit: (S, Tree) -> S): S
    decreases t, |t.children| + 1
  {
    var s1 := visit(s, t);
    if enter(t) then RecurseFrom(t, 0, s1, enter, visit) else s1
  }

  function RecurseFrom<S>(t: Tree, i: nat, s: S, enter: Tree -> bool, visit: (S, Tree) -> S): S
    requires i <= |t.children|
    decreases t, |t.children| - i
  {
    if i == |t.children| then s
    else RecurseFrom(t, i + 1, Recurse(t.children[i], s, enter, visit), enter, visit)
  }

  // ---------------------------------------------------------------- the walk visits exactly the right nodes, once, in order

  /** A position is reached when every node above it is entered. */
  predicate Reached(root: Tree, p: Position, enter: Tree -> bool)
    decreases |p|
  {
    Within(root, p) && (p != [] ==> Reached(root, p[..|p| - 1], enter) && enter(At(root, p[..|p| - 1])))
  }

  lemma ReachedChild(root: Tree, p: Position, i: nat, enter: Tree -> bool)
    requires Reached(root, p, enter) && enter(At(root, p)) && i < |At(root, p).children|
    ensures Reached(root, p + [i], enter)
  {
  }

  lemma {:induction false} WalkIsReached(root: Tree, at: Position, enter: Tree -> bool, p: Position)
    requires Reached(root, at, enter) && p in Walk(At(root, at), at, enter)
    ensures Reached(root, p, enter)
    decreases At(root, at), |At(root, at).children| + 1
  {
    if p != at {
      WalkFromIsReached(root, at, 0, enter, p);
    }
  }

  lemma {:induction false} WalkFromIsReached(root: Tree, at: Position, i: nat, enter: Tree -> bool, p: Position)
    requires Reached(root, at, enter) && enter(At(root, at)) && i <= |At(root, at).children|
    requires p in WalkFrom(At(root, at), at, i, enter)
    ensures Reached(root, p, enter)
    decreases At(root, at), |At(root, at).children| - i
  {
    ReachedChild(root, at, i, enter);
    ChildOf(root, at, i);
    if p in Walk(At(root, at + [i]), at + [i], enter) {
      WalkIsReached(root, at + [i], enter, p);
    } else {
      WalkFromIsReached(root, at, i + 1, enter, p);
    }
  }

  lemma {:induction false} ChildInWalkFrom(t: Tree, at: Position, i: nat, k: nat, enter: Tree -> bool)
    requires i <= k < |t.children|
    ensures at + [k] in WalkFrom(t, at, i, enter)
    decreases k - i
  {
    if i < k {
      ChildInWalkFrom(t, at, i + 1, k, enter);
    }
  }

  /** The walk is closed under entering: the children of a visited, entered node are visited. */
  lemma {:induction false} WalkIsClosed(root: Tree, at: Position, enter: Tree -> bool, p: Position, k: nat)
    requires Reached(root, at, enter) && p in Walk(At(root, at), at, enter)
    requires Within(root, p) && enter(At(root, p)) && k < |At(root, p).children|
    ensures p + [k] in Walk(At(root, at), at, enter)
    decreases At(root, at), |At(root, at).children| + 1
  {
    if p == at {
      ChildInWalkFrom(At(root, at), at, 0, k, enter);
    } else {
      WalkFromIsClosed(root, at, 0, enter, p, k);
    }
  }

  lemma {:induction false} WalkFromIsClosed(root: Tree, at: Position, i: nat, enter: Tree -> bool, p: Position, k: nat)
    requires Reached(root, at, enter) && enter(At(root, at)) && i <= |At(root, at).children|
    requires p in WalkFrom(At(root, at), at, i, enter)
    requires Within(root, p) && enter(At(root, p)) && k < |At(root, p).children|
    ensures p + [k] in WalkFrom(At(root, at), at, i, enter)
    decreases At(root, at), |At(root, at).children| - i
  {
    ReachedChild(root, at, i, enter);
    ChildOf(root, at, i);
    if p in Walk(At(root, at + [i]), at + [i], enter) {
      WalkIsClosed(root, at + [i], enter, p, k);
    } else {
      WalkFromIsClosed(root, at, i + 1, enter, p, k);
    }
  }

  /** The walk visits every reached position and nothing else. */
  lemma {:induction false} WalkVisitsExactly(root: Tree, enter: Tree -> bool, p: Position)
    ensures p in Walk(root, [], enter) <==> Reached(root, p, enter)
    decreases |p|
  {
    assert At(root, []) == root && Reached(root, [], enter);
    if p in Walk(root, [], enter) {
      WalkIsReached(root, [], enter, p);
    }
    if Reached(root, p, enter) && p != [] {
      var q, k := p[..|p| - 1], p[|p| - 1];
      WalkVisitsExactly(root, enter, q);
      WalkIsClosed(root, [], enter, q, k);
      assert p == q + [k];
    }
  }

  /** Pre-order: a node comes before what is below it and before what is below its later siblings. */
  predicate Before(p: Position, q: Position)
    decreases |p|
  {
    q != [] && (p == [] || p[0] < q[0] || (p[0] == q[0] && Before(p[1..], q[1..])))
  }

  ghost predicate Ordered(s: seq<Position>) {
    forall i, j :: 0 <= i < j < |s| ==> Before(s[i], s[j])
  }

  lemma {:induction false} BeforeIsStrict(p: Position)
    ensures !Before(p, p)
  {
    if p != [] {
      BeforeIsStrict(p[1..]);
    }
  }

  lemma {:induction false} BeforeUnder(at: Position, x: Position, y: Position)
    ensures Before(at + x, at + y) <==> Before(x, y)
  {
    if at == [] {
      assert at + x == x && at + y == y;
    } else {
      assert (at + x)[1..] == at[1..] + x && (at + y)[1..] == at[1..] + y;
      BeforeUnder(at[1..], x, y);
    }
  }

  predicate Under(at: Position, p: Position) {
    |at| <= |p| && p[..|at|] == at
  }

  lemma {:induction false} WalkUnder(t: Tree, at: Position, enter: Tree -> bool, p: Position)
    requires p in Walk(t, at, enter)
    ensures Under(at, p)
    decreases t, |t.children| + 1
  {
    if p != at {
      var k := WalkFromUnder(t, at, 0, enter, p);
    }
  }

  lemma {:induction false} WalkFromUnder(t: Tree, at: Position, i: nat, enter: Tree -> bool, p: Position) returns (k: nat)
    requires i <= |t.children| && p in WalkFrom(t, at, i, enter)
    ensures i <= k && Under(at + [k], p) && Under(at, p)
    decreases t, |t.children| - i
  {
    if p in Walk(t.children[i], at + [i], enter) {
      WalkUnder(t.children[i], at + [i], enter, p);
      k := i;
    } else {
      k := WalkFromUnder(t, at, i + 1, enter, p);
    }
    assert at == (at + [k])[..|at|] == p[..|at|];
  }

  lemma SiblingsOrdered(at: Position, i: nat, k: nat, p: Position, q: Position)
    requires i < k && Under(at + [i], p) && Under(at + [k], q)
    ensures Before(p, q)
  {
    var x, y := [i] + p[|at| + 1..], [k] + q[|at| + 1..];
    assert p == at + x && q == at + y;
    BeforeUnder(at, x, y);
  }

  lemma {:induction false} WalkOrdered(t: Tree, at: Position, enter: Tree -> bool)
    ensures Ordered(Walk(t, at, enter))
    decreases t, |t.children| + 1
  {
    if enter(t) {
      WalkFromOrdered(t, at, 0, enter);
      var rest := WalkFrom(t, at, 0, enter);
      forall j | 0 <= j < |rest|
        ensures Before(at, rest[j])
      {
        var k := WalkFromUnder(t, at, 0, enter, rest[j]);
        assert rest[j] == at + rest[j][|at|..] && at == at + [];
        BeforeUnder(at, [], rest[j][|at|..]);
      }
    }
  }

  lemma {:induction false} WalkFromOrdered(t: Tree, at: Position, i: nat, enter: Tree -> bool)
    requires i <= |t.children|
    ensures Ordered(WalkFrom(t, at, i, enter))
    decreases t, |t.children| - i
  {
    if i < |t.children| {
      WalkOrdered(t.children[i], at + [i], enter);
      WalkFromOrdered(t, at, i + 1, enter);
      var a, b := Walk(t.children[i], at + [i], enter), WalkFrom(t, at, i + 1, enter);
      forall x, y | 0 <= x < |a| && 0 <= y < |b|
        ensures Before(a[x], b[y])
      {
        WalkUnder(t.children[i], at + [i], enter, a[x]);
        var k := WalkFromUnder(t, at, i + 1, enter, b[y]);
        SiblingsOrdered(at, i, k, a[x], b[y]);
      }
      OrderedConcat(a, b);
    }
  }

  lemma OrderedConcat(a: seq<Position>, b: seq<Position>)
    requires Ordered(a) && Ordered(b) && forall x, y :: 0 <= x < |a| && 0 <= y < |b| ==> Before(a[x], b[y])
    ensures Ordered(a + b)
  {
  }

  /** No position is visited twice. */
  lemma WalkVisitsOnce(t: Tree, enter: Tree -> bool, i: nat, j: nat)
    requires i < j < |Walk(t, [], enter)|
    ensures Walk(t, [], enter)[i] != Walk(t, [], enter)[j]
  {
    WalkOrdered(t, [], enter);
    BeforeIsStrict(Walk(t, [], enter)[i]);
  }

  // ---------------------------------------------------------------- folding over the walk is recursion

  /** Visit the nodes at some positions, one after the other. */
  function Fold<S>(root: Tree, ps: seq<Position>, s: S, visit: (S, Tree) -> S): S
    requires forall k :: 0 <= k < |ps| ==> Within(root, ps[k])
  {
    if ps == [] then s else visit(Fold(root, ps[..|ps| - 1], s, visit), At(root, ps[|ps| - 1]))
  }

  lemma {:induction false} FoldConcat<S>(root: Tree, a: seq<Position>, b: seq<Position>, s: S, visit: (S, Tree) -> S)
    requires forall k :: 0 <= k < |a| ==> Within(root, a[k])
    requires forall k :: 0 <= k < |b| ==> Within(root, b[k])
    ensures Fold(root, a + b, s, visit) == Fold(root, b, Fold(root, a, s, visit), visit)
    decreases |b|
  {
    if b == [] {
      assert a + b == a;
    } else {
      var last := |b| - 1;
      assert (a + b)[..|a + b| - 1] == a + b[..last];
      FoldConcat(root, a, b[..last], s, visit);
    }
  }

  lemma WalkWithin(root: Tree, at: Position, enter: Tree -> bool)
    requires Reached(root, at, enter)
    ensures forall p :: p in Walk(At(root, at), at, enter) ==> Within(root, p)
  {
    forall p | p in Walk(At(root, at), at, enter)
      ensures Within(root, p)
    {
      WalkIsReached(root, at, enter, p);
    }
  }

  lemma WalkFromWithin(root: Tree, at: Position, i: nat, enter: Tree -> bool)
    requires Reached(root, at, enter) && enter(At(root, at)) && i <= |At(root, at).children|
    ensures forall p :: p in WalkFrom(At(root, at), at, i, enter) ==> Within(root, p)
  {
    forall p | p in WalkFrom(At(root, at), at, i, enter)
      ensures Within(root, p)
    {
      WalkFromIsReached(root, at, i, enter, p);
    }
  }

  lemma FoldOne<S>(root: Tree, at: Position, s: S, visit: (S, Tree) -> S)
    requires Within(root, at)
    ensures Fold(root, [at], s, visit) == visit(s, At(root, at))
  {
  }

  lemma {:induction false} FoldIsRecursion<S>(root: Tree, at: Position, s: S, enter: Tree -> bool, visit: (S, Tree) -> S)
    requires Reached(root, at, enter)
    ensures forall p :: p in Walk(At(root, at), at, enter) ==> Within(root, p)
    ensures Fold(root, Walk(At(root, at), at, enter), s, visit) == Recurse(At(root, at), s, enter, visit)
    decreases At(root, at), |At(root, at).children| + 1
  {
    WalkWithin(root, at, enter);
    var t := At(root, at);
    FoldOne(root, at, s, visit);
    if enter(t) {
      WalkFromWithin(root, at, 0, enter);
      FoldFromIsRecursion(root, at, 0, visit(s, t), enter, visit);
      FoldConcat(root, [at], WalkFrom(t, at, 0, enter), s, visit);
    } else {
      assert Walk(t, at, enter) == [at];
    }
  }

  lemma {:induction false} FoldFromIsRecursion<S>(
    root: Tree, at: Position, i: nat, s: S, enter: Tree -> bool, visit: (S, Tree) -> S)
    requires Reached(root, at, enter) && enter(At(root, at)) && i <= |At(root, at).children|
    ensures forall p :: p in WalkFrom(At(root, at), at, i, enter) ==> Within(root, p)
    ensures Fold(root, WalkFrom(At(root, at), at, i, enter), s, visit) == RecurseFrom(At(root, at), i, s, enter, visit)
    decreases At(root, at), |At(root, at).children| - i
  {
    WalkFromWithin(root, at, i, enter);
    var t := At(root, at);
    if i < |t.children| {
      ReachedChild(root, at, i, enter);
      ChildOf(root, at, i);
      FoldIsRecursion(root, at + [i], s, enter, visit);
      var s1 := Recurse(t.children[i], s, enter, visit);
      FoldFromIsRecursion(root, at, i + 1, s1, enter, visit);
      FoldConcat(root, Walk(t.children[i], at + [i], enter), WalkFrom(t, at, i + 1, enter), s, visit);
    }
  }

  // ---------------------------------------------------------------- the cursor

  /** What is still to be visited once the subtree at a position is done. */
  function Rest(root: Tree, p: Position, enter: Tree -> bool): seq<Position>
    requires Within(root, p)
    decreases |p|
  {
    if p == [] then []
    else
      var parent := p[..|p| - 1];
      WalkFrom(At(root, parent), parent, p[|p| - 1] + 1, enter) + Rest(root, parent, enter)
  }

  function ToVisit(root: Tree, p: Position, enter: Tree -> bool): seq<Position>
    requires Within(root, p)
  {
    Walk(At(root, p), p, enter) + Rest(root, p, enter)
  }

  /** What is still to be visited after the node itself. */
  function Following(root: Tree, p: Position, enter: Tree -> bool): seq<Position>
    requires Within(root, p)
  {
    (if enter(At(root, p)) then WalkFrom(At(root, p), p, 0, enter) else []) + Rest(root, p, enter)
  }

  lemma VisitOne(root: Tree, p: Position, enter: Tree -> bool)
    requires Within(root, p)
    ensures ToVisit(root, p, enter) == [p] + Following(root, p, enter)
  {
  }

  lemma ChildIsNext(root: Tree, p: Position, i: nat, enter: Tree -> bool)
    requires Within(root, p) && i < |At(root, p).children|
    ensures Within(root, p + [i])
    ensures ToVisit(root, p + [i], enter) == WalkFrom(At(root, p), p, i, enter) + Rest(root, p, enter)
  {
    ChildOf(root, p, i);
    assert (p + [i])[..|p|] == p;
  }

  /** Below the root of the walk, a node may have a next sibling. */
  predicate HasNext(root: Tree, p: Position)
    requires Within(root, p)
  {
    p != [] && p[|p| - 1] + 1 < |At(root, p[..|p| - 1]).children|
  }

  function NextOf(p: Position): Position
    requires p != []
  {
    p[..|p| - 1] + [p[|p| - 1] + 1]
  }

  lemma SiblingIsNext(root: Tree, p: Position, enter: Tree -> bool)
    requires Within(root, p) && HasNext(root, p)
    ensures Within(root, NextOf(p)) && ToVisit(root, NextOf(p), enter) == Rest(root, p, enter)
  {
    ChildIsNext(root, p[..|p| - 1], p[|p| - 1] + 1, enter);
  }

  lemma ParentIsNext(root: Tree, p: Position, enter: Tree -> bool)
    requires Within(root, p) && !HasNext(root, p) && p != []
    ensures Within(root, p[..|p| - 1]) && Rest(root, p[..|p| - 1], enter) == Rest(root, p, enter)
  {
  }

  class TreeCursor {
    const root: Tree
    var position: Position

    ghost predicate Valid()
      reads this
    {
      Within(root, position)
    }

    constructor (root: Tree)
      ensures Valid() && this.root == root && position == []
    {
      this.root := root;
      position := [];
    }

    function Node(): Tree
      requires Valid()
      reads this
    {
      At(root, position)
    }

    method GotoFirstChild() returns (ok: bool)
      requires Valid()
      modifies this
      ensures Valid() && (ok <==> old(Node()).children != [])
      ensures position == if ok then old(position) + [0] else old(position)
    {
      if |Node().children| == 0 {
        return false;
      }
      ChildOf(root, position, 0);
      position := position + [0];
      ok := true;
    }

    method GotoNextSibling() returns (ok: bool)
      requires Valid()
      modifies this
      ensures Valid()
      ensures ok <==> HasNext(root, old(position))
      ensures position == if ok then NextOf(old(position)) else old(position)
    {
      if position == [] {
        return false;
      }
      var parent, i := position[..|position| - 1], position[|position| - 1];
      if i + 1 == |At(root, parent).children| {
        return false;
      }
      ChildOf(root, parent, i + 1);
      position := parent + [i + 1];
      ok := true;
    }

    method GotoParent() returns (ok: bool)
      requires Valid()
      modifies this
      ensures Valid() && (ok <==> old(position) != [])
      ensures position == if ok then old(position)[..|old(position)| - 1] else []
    {
      if position == [] {
        return false;
      }
      position := position[..|position| - 1];
      ok := true;
    }

    /** Climb until a node has a next sibling; what is still to be visited does not change. */
    method Climb(ghost enter: Tree -> bool) returns (more: bool)
      requires Valid()
      modifies this
      ensures Valid()
      ensures more ==> ToVisit(root, position, enter) == Rest(root, old(position), enter)
      ensures !more ==> Rest(root, old(position), enter) == []
    {
      more := GotoNextSibling();
      if more {
        SiblingIsNext(root, old(position), enter);
        return;
      }
      while true
        invariant Valid() && !HasNext(root, position)
        invariant Rest(root, position, enter) == Rest(root, old(position), enter)
        decreases |position|
      {
        ghost var below := position;
        var up := GotoParent();
        if !up {
          return false;
        }
        ParentIsNext(root, below, enter);
        ghost var parent := position;
        more := GotoNextSibling();
        if more {
          SiblingIsNext(root, parent, enter);
          return;
        }
      }
    }

    /** Move to the next node of the walk, or report that the walk is over. */
    method Advance(descend: bool, ghost enter: Tree -> bool) returns (more: bool)
      requires Valid() && descend == enter(Node())
      modifies this
      ensures Valid()
      ensures more ==> ToVisit(root, position, enter) == Following(root, old(position), enter)
      ensures !more ==> Following(root, old(position), enter) == []
    {
      if descend {
        more := GotoFirstChild();
        if more {
          ChildIsNext(root, old(position), 0, enter);
          return;
        }
      }
      more := Climb(enter);
    }
  }
}
