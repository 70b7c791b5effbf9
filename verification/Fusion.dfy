/**
Reciprocal rank fusion over exact reals (src/scs/indexing/search.py:379-436).

Node ids are numbers here: they are digests of one fixed length, whose text order is number order.
*/
module Fusion {
  import opened Outcome
  import opened Batching

  const RECIPROCAL_RANK_CONSTANT: nat := 60

  datatype Hit = Hit(id: nat, distance: real)

  /** What is known of a candidate. */
  datatype Value = Value(score: real, distance: Option<real>, queries: set<nat>)

  datatype Match = Match(id: nat, value: Value)

  const ZERO := Value(0.0, None, {})

  function Reciprocal(rank: nat): real {
    1.0 / (RECIPROCAL_RANK_CONSTANT + rank) as real
  }

  lemma ReciprocalDecreases(r: nat, s: nat)
    requires r < s
    ensures 0.0 < Reciprocal(s) < Reciprocal(r)
  {
    var a, b := (60 + r) as real, (60 + s) as real;
    assert 1.0 / b * b == 1.0 && 1.0 / a * a == 1.0;
    OrderOfInverses(a, b, 1.0 / a, 1.0 / b);
  }

  lemma OrderOfInverses(a: real, b: real, x: real, y: real)
    requires 0.0 < a < b && x * a == 1.0 && y * b == 1.0
    ensures 0.0 < y < x
  {
  }

  // ---------------------------------------------------------------- scores over ranked lists

  /** The contribution of one ranked list. */
  function ListScore(ids: seq<nat>, id: nat): real {
    if ids == [] then 0.0
    else ListScore(ids[..|ids| - 1], id) + (if ids[|ids| - 1] == id then Reciprocal(|ids|) else 0.0)
  }

  function ScoreOver(lists: seq<seq<nat>>, id: nat): real {
    if lists == [] then 0.0 else ScoreOver(lists[..|lists| - 1], id) + ListScore(lists[|lists| - 1], id)
  }

  predicate InSomeList(lists: seq<seq<nat>>, id: nat) {
    exists k :: 0 <= k < |lists| && id in lists[k]
  }

  lemma {:induction false} ListScoreAbsent(ids: seq<nat>, id: nat)
    ensures ListScore(ids, id) >= 0.0
    ensures id !in ids ==> ListScore(ids, id) == 0.0
  {
    if ids != [] {
      ListScoreAbsent(ids[..|ids| - 1], id);
      ReciprocalDecreases(|ids|, |ids| + 1);
    }
  }

  ghost predicate NoRepeats(ids: seq<nat>) {
    forall i, j :: 0 <= i < j < |ids| ==> ids[i] != ids[j]
  }

  /** In a list without repeats a place in the list is worth its reciprocal rank. */
  lemma {:induction false} ListScoreAt(ids: seq<nat>, i: nat)
    requires NoRepeats(ids) && i < |ids|
    ensures ListScore(ids, ids[i]) == Reciprocal(i + 1) == 1.0 / (61 + i) as real
    decreases |ids|
  {
    var n := |ids| - 1;
    if i == n {
      assert ids[n] !in ids[..n];
      ListScoreAbsent(ids[..n], ids[n]);
    } else {
      ListScoreAt(ids[..n], i);
    }
  }

  /** One candidate stands above another wherever the other stands at all. */
  ghost predicate Above(ids: seq<nat>, a: nat, b: nat) {
    b in ids ==> exists i, j :: 0 <= i < j < |ids| && ids[i] == a && ids[j] == b
  }

  lemma AboveScoresHigher(ids: seq<nat>, a: nat, b: nat)
    requires NoRepeats(ids) && Above(ids, a, b)
    ensures ListScore(ids, a) >= ListScore(ids, b)
    ensures b in ids ==> ListScore(ids, a) > ListScore(ids, b)
  {
    ListScoreAbsent(ids, a);
    ListScoreAbsent(ids, b);
    if b in ids {
      var i, j :| 0 <= i < j < |ids| && ids[i] == a && ids[j] == b;
      ListScoreAt(ids, i);
      ListScoreAt(ids, j);
      ReciprocalDecreases(i + 1, j + 1);
    }
  }

  ghost predicate Dominates(lists: seq<seq<nat>>, a: nat, b: nat) {
    forall k :: 0 <= k < |lists| ==> NoRepeats(lists[k]) && Above(lists[k], a, b)
  }

  /** A candidate above another in every list that contains the other scores higher. */
  lemma {:induction false} DominantScoresHigher(lists: seq<seq<nat>>, a: nat, b: nat)
    requires Dominates(lists, a, b)
    ensures ScoreOver(lists, a) >= ScoreOver(lists, b)
    ensures InSomeList(lists, b) ==> ScoreOver(lists, a) > ScoreOver(lists, b)
  {
    if lists != [] {
      var n := |lists| - 1;
      DominantScoresHigher(lists[..n], a, b);
      AboveScoresHigher(lists[n], a, b);
      if k :| 0 <= k < |lists| && b in lists[k] {
        if k < n {
          assert b in lists[..n][k];
        }
      }
    }
  }

  // ---------------------------------------------------------------- the final order

  /** Higher scores first, equal scores by id. */
  predicate Precedes(x: Match, y: Match) {
    x.value.score > y.value.score || (x.value.score == y.value.score && x.id < y.id)
  }

  ghost predicate Ranked(s: seq<Match>) {
    forall i, j :: 0 <= i < j < |s| ==> Precedes(s[i], s[j])
  }

  ghost predicate OneEach(s: seq<Match>) {
    forall i, j :: 0 <= i < j < |s| ==> s[i].id != s[j].id
  }

  predicate Lists(s: seq<Match>, id: nat) {
    exists i :: 0 <= i < |s| && s[i].id == id
  }

  /** A ranked list of candidates, each once with its value. */
  ghost predicate Lays(c: map<nat, Value>, s: seq<Match>) {
    && Ranked(s)
    && (forall i :: 0 <= i < |s| ==> s[i].id in c && s[i].value == c[s[i].id])
    && (forall id :: id in c ==> Match(id, c[id]) in s)
    && OneEach(s)
  }

  method InsertRanked(m: Match, s: seq<Match>) returns (r: seq<Match>)
    requires Ranked(s) && forall i :: 0 <= i < |s| ==> s[i].id != m.id
    ensures Ranked(r) && multiset(r) == multiset(s) + multiset{m}
  {
    var i := 0;
    while i < |s| && Precedes(s[i], m)
      invariant 0 <= i <= |s|
      invariant forall j :: 0 <= j < i ==> Precedes(s[j], m)
    {
      i := i + 1;
    }
    r := s[..i] + [m] + s[i..];
    assert s == s[..i] + s[i..];
    forall j, k | 0 <= j < k < |r|
      ensures Precedes(r[j], r[k])
    {
      if k == i {
      } else if j == i {
        if k > i + 1 {
          assert Precedes(s[i], s[k - 1]);
        }
      }
    }
  }

  method RankCandidates(c: map<nat, Value>) returns (s: seq<Match>)
    ensures Lays(c, s)
  {
    s := [];
    var left := c.Keys;
    while left != {}
      invariant left <= c.Keys && Ranked(s)
      invariant forall m :: m in s <==> m.id in c && m.id !in left && m.value == c[m.id]
      decreases |left|
    {
      var id :| id in left;
      ghost var before := s;
      s := InsertRanked(Match(id, c[id]), s);
      MembersOf(before, s, Match(id, c[id]));
      left := left - {id};
    }
    RankedOnce(c, s);
  }

  lemma MembersOf(a: seq<Match>, b: seq<Match>, m: Match)
    requires multiset(b) == multiset(a) + multiset{m}
    ensures forall x :: x in b <==> x in a || x == m
  {
    forall x
      ensures x in b <==> x in a || x == m
    {
      assert x in b <==> x in multiset(b);
      assert x in a <==> x in multiset(a);
    }
  }

  lemma RankedOnce(c: map<nat, Value>, s: seq<Match>)
    requires Ranked(s) && forall m :: m in s <==> m.id in c && m.value == c[m.id]
    ensures Lays(c, s)
  {
  }

  lemma HeadIsMember(s: seq<Match>)
    ensures s != [] ==> s[0] in s
  {
  }

  /** The order leaves no choice. */
  lemma {:induction false} RankedIsUnique(a: seq<Match>, b: seq<Match>)
    requires Ranked(a) && Ranked(b) && forall m :: m in a <==> m in b
    ensures a == b
    decreases |a|
  {
    if a == [] {
      HeadIsMember(b);
    } else {
      assert a[0] in b && b != [];
      assert b[0] in a;
      assert a[0] == b[0];
      forall m
        ensures m in a[1..] <==> m in b[1..]
      {
        TailMembers(a, m);
        TailMembers(b, m);
      }
      RankedIsUnique(a[1..], b[1..]);
      assert a == [a[0]] + a[1..] && b == [b[0]] + b[1..];
    }
  }

  lemma TailMembers(s: seq<Match>, m: Match)
    requires Ranked(s) && s != []
    ensures m in s[1..] <==> m in s && m != s[0]
  {
  }

  // ---------------------------------------------------------------- fusing one query

  function Ids(hits: seq<Hit>): seq<nat> {
    seq(|hits|, i requires 0 <= i < |hits| => hits[i].id)
  }

  /** The distance of the last hit on a node. */
  function LastDistance(hits: seq<Hit>, id: nat): Option<real> {
    if hits == [] then None
    else if hits[|hits| - 1].id == id then Some(hits[|hits| - 1].distance)
    else LastDistance(hits[..|hits| - 1], id)
  }

  function FusedValue(semantic: seq<Hit>, lexical: seq<nat>, query: nat, id: nat): Value {
    Value(ListScore(Ids(semantic), id) + ListScore(lexical, id), LastDistance(semantic, id), {query})
  }

  ghost predicate Fusing(c: map<nat, Value>, semantic: seq<Hit>, lexical: seq<nat>, query: nat) {
    forall id :: (id in c <==> id in Ids(semantic) || id in lexical)
      && (id in c ==> c[id] == FusedValue(semantic, lexical, query, id))
  }

  function Candidate(c: map<nat, Value>, id: nat): Value {
    if id in c then c[id] else ZERO
  }

  lemma {:induction false} NoDistance(hits: seq<Hit>, id: nat)
    requires id !in Ids(hits)
    ensures LastDistance(hits, id) == None
  {
    if hits != [] {
      var n := |hits| - 1;
      assert Ids(hits)[n] == hits[n].id;
      assert Ids(hits[..n]) == Ids(hits)[..n];
      NoDistance(hits[..n], id);
    }
  }

  /** The last hit on a node lies at this distance. */
  ghost predicate LastHit(hits: seq<Hit>, id: nat, distance: real) {
    exists i :: 0 <= i < |hits| && hits[i] == Hit(id, distance) && forall j :: i < j < |hits| ==> hits[j].id != id
  }

  lemma {:induction false} LastDistanceExactly(hits: seq<Hit>, id: nat)
    ensures LastDistance(hits, id).Some? ==> LastHit(hits, id, LastDistance(hits, id).value)
    ensures forall x :: LastHit(hits, id, x) ==> LastDistance(hits, id) == Some(x)
    decreases |hits|
  {
    if hits != [] {
      var n := |hits| - 1;
      var before := hits[..n];
      LastDistanceExactly(before, id);
      if hits[n].id == id {
        assert hits[n] == Hit(id, hits[n].distance);
      } else {
        forall x
          ensures LastHit(hits, id, x) <==> LastHit(before, id, x)
        {
          OtherHitLast(hits, id, x);
        }
      }
    }
  }

  lemma OtherHitLast(hits: seq<Hit>, id: nat, x: real)
    requires hits != [] && hits[|hits| - 1].id != id
    ensures LastHit(hits, id, x) <==> LastHit(hits[..|hits| - 1], id, x)
  {
    var before := hits[..|hits| - 1];
    if i :| 0 <= i < |hits| && hits[i] == Hit(id, x) && forall j :: i < j < |hits| ==> hits[j].id != id {
      assert i < |before| && before[i] == Hit(id, x);
    }
    if i :| 0 <= i < |before| && before[i] == Hit(id, x) && forall j :: i < j < |before| ==> before[j].id != id {
      assert hits[i] == Hit(id, x);
      assert forall j :: i < j < |before| ==> hits[j] == before[j];
    }
  }

  lemma SemanticSnoc(semantic: seq<Hit>, hit: Hit, id: nat)
    ensures ListScore(Ids(semantic + [hit]), id)
         == ListScore(Ids(semantic), id) + (if hit.id == id then Reciprocal(|semantic| + 1) else 0.0)
    ensures LastDistance(semantic + [hit], id) == if hit.id == id then Some(hit.distance) else LastDistance(semantic, id)
    ensures id in Ids(semantic + [hit]) <==> id in Ids(semantic) || id == hit.id
  {
    var all := semantic + [hit];
    assert all[..|semantic|] == semantic;
    assert Ids(all) == Ids(semantic) + [hit.id];
    assert Ids(all)[..|semantic|] == Ids(semantic);
  }

  lemma AddSemantic(c: map<nat, Value>, semantic: seq<Hit>, hit: Hit, query: nat)
    requires Fusing(c, semantic, [], query)
    ensures var v := Candidate(c, hit.id);
      Fusing(c[hit.id := Value(v.score + Reciprocal(|semantic| + 1), Some(hit.distance), v.queries + {query})],
             semantic + [hit], [], query)
  {
    forall id
      ensures id in Ids(semantic + [hit]) <==> id in Ids(semantic) || id == hit.id
      ensures ListScore(Ids(semantic + [hit]), id)
           == ListScore(Ids(semantic), id) + (if hit.id == id then Reciprocal(|semantic| + 1) else 0.0)
      ensures LastDistance(semantic + [hit], id) == if hit.id == id then Some(hit.distance) else LastDistance(semantic, id)
    {
      SemanticSnoc(semantic, hit, id);
    }
    ListScoreAbsent(Ids(semantic), hit.id);
  }

  lemma AddLexical(c: map<nat, Value>, semantic: seq<Hit>, lexical: seq<nat>, node: nat, query: nat)
    requires Fusing(c, semantic, lexical, query)
    ensures var v := Candidate(c, node);
      Fusing(c[node := Value(v.score + Reciprocal(|lexical| + 1), v.distance, v.queries + {query})],
             semantic, lexical + [node], query)
  {
    var all := lexical + [node];
    assert all[..|lexical|] == lexical;
    ListScoreAbsent(Ids(semantic), node);
    ListScoreAbsent(lexical, node);
    if node !in Ids(semantic) {
      NoDistance(semantic, node);
    }
  }

  /** Candidates of one query: each once, scored by every place it holds in either list. */
  method Fuse(semantic: seq<Hit>, lexical: seq<nat>, query: nat) returns (matches: seq<Match>)
    ensures IsFuse(Angle(semantic, lexical), query, matches)
  {
    var candidates := FuseSemantic(semantic, query);
    candidates := FuseLexical(candidates, semantic, lexical, query);
    matches := RankCandidates(candidates);
  }

  method FuseSemantic(semantic: seq<Hit>, query: nat) returns (candidates: map<nat, Value>)
    ensures Fusing(candidates, semantic, [], query)
  {
    candidates := map[];
    var i := 0;
    while i < |semantic|
      invariant 0 <= i <= |semantic| && Fusing(candidates, semantic[..i], [], query)
    {
      var hit := semantic[i];
      AddSemantic(candidates, semantic[..i], hit, query);
      assert semantic[..i + 1] == semantic[..i] + [hit];
      var v := Candidate(candidates, hit.id);
      candidates := candidates[hit.id := Value(v.score + Reciprocal(i + 1), Some(hit.distance), v.queries + {query})];
      i := i + 1;
    }
    assert semantic[..|semantic|] == semantic;
  }

  method FuseLexical(c: map<nat, Value>, ghost semantic: seq<Hit>, lexical: seq<nat>, query: nat)
    returns (candidates: map<nat, Value>)
    requires Fusing(c, semantic, [], query)
    ensures Fusing(candidates, semantic, lexical, query)
  {
    candidates := c;
    var k := 0;
    while k < |lexical|
      invariant 0 <= k <= |lexical| && Fusing(candidates, semantic, lexical[..k], query)
    {
      AddLexical(candidates, semantic, lexical[..k], lexical[k], query);
      assert lexical[..k + 1] == lexical[..k] + [lexical[k]];
      var v := Candidate(candidates, lexical[k]);
      candidates := candidates[lexical[k] := Value(v.score + Reciprocal(k + 1), v.distance, v.queries + {query})];
      k := k + 1;
    }
    assert lexical[..|lexical|] == lexical;
  }

  // ---------------------------------------------------------------- merging queries

  function Nearest(a: Option<real>, b: Option<real>): Option<real> {
    if b.Some? && (a.None? || b.value < a.value) then b else a
  }

  function Add(v: Value, w: Value): Value {
    Value(v.score + w.score, Nearest(v.distance, w.distance), v.queries + w.queries)
  }

  lemma AddAssociates(u: Value, v: Value, w: Value)
    ensures Add(Add(u, v), w) == Add(u, Add(v, w))
  {
  }

  function Share(m: Match, id: nat): Value {
    if m.id == id then m.value else ZERO
  }

  /** Everything some matches say about a node. */
  function ValueOf(matches: seq<Match>, id: nat): Value {
    if matches == [] then ZERO else Add(ValueOf(matches[..|matches| - 1], id), Share(matches[|matches| - 1], id))
  }

  ghost predicate Merging(c: map<nat, Value>, matches: seq<Match>) {
    forall id :: (id in c <==> Lists(matches, id)) && (id in c ==> c[id] == ValueOf(matches, id))
  }

  ghost predicate IsMerge(matches: seq<Match>, merged: seq<Match>) {
    exists c :: Merging(c, matches) && Lays(c, merged)
  }

  lemma ListsSnoc(matches: seq<Match>, m: Match, id: nat)
    ensures Lists(matches + [m], id) <==> Lists(matches, id) || m.id == id
    ensures ValueOf(matches + [m], id) == Add(ValueOf(matches, id), Share(m, id))
  {
    var all := matches + [m];
    assert all[..|matches|] == matches && all[|matches|] == m;
    if Lists(matches, id) {
      var i :| 0 <= i < |matches| && matches[i].id == id;
      assert all[i].id == id;
    }
  }

  lemma {:induction false} UnlistedIsZero(matches: seq<Match>, id: nat)
    requires !Lists(matches, id)
    ensures ValueOf(matches, id) == ZERO
  {
    if matches != [] {
      var n := |matches| - 1;
      assert matches == matches[..n] + [matches[n]];
      ListsSnoc(matches[..n], matches[n], id);
      UnlistedIsZero(matches[..n], id);
    }
  }

  lemma CandidateValue(c: map<nat, Value>, matches: seq<Match>, id: nat)
    requires Merging(c, matches)
    ensures Candidate(c, id) == ValueOf(matches, id)
  {
    if id !in c {
      UnlistedIsZero(matches, id);
    }
  }

  lemma AddZero(v: Value)
    ensures Add(v, ZERO) == v
  {
  }

  lemma AddMatch(c: map<nat, Value>, matches: seq<Match>, m: Match)
    requires Merging(c, matches)
    ensures Merging(c[m.id := Add(Candidate(c, m.id), m.value)], matches + [m])
  {
    var more := c[m.id := Add(Candidate(c, m.id), m.value)];
    forall id
      ensures id in more <==> Lists(matches + [m], id)
      ensures id in more ==> more[id] == ValueOf(matches + [m], id)
    {
      AddMatchAt(c, matches, m, id);
    }
  }

  lemma AddMatchAt(c: map<nat, Value>, matches: seq<Match>, m: Match, id: nat)
    requires Merging(c, matches)
    ensures var more := c[m.id := Add(Candidate(c, m.id), m.value)];
      (id in more <==> Lists(matches + [m], id)) && (id in more ==> more[id] == ValueOf(matches + [m], id))
  {
    ListsSnoc(matches, m, id);
    if id == m.id {
      CandidateValue(c, matches, id);
    } else {
      AddZero(ValueOf(matches, id));
    }
  }

  /** Merge the matches of several queries. */
  method MergeQueryMatches(results: seq<seq<Match>>) returns (merged: seq<Match>)
    ensures IsMerge(Join(results), merged)
  {
    var candidates: map<nat, Value> := map[];
    var q := 0;
    while q < |results|
      invariant 0 <= q <= |results| && Merging(candidates, Join(results[..q]))
    {
      ghost var before := Join(results[..q]);
      assert before + results[q][..0] == before;
      var i := 0;
      while i < |results[q]|
        invariant 0 <= i <= |results[q]| && Merging(candidates, before + results[q][..i])
      {
        var m := results[q][i];
        AddMatch(candidates, before + results[q][..i], m);
        assert before + results[q][..i + 1] == before + results[q][..i] + [m];
        var v := Candidate(candidates, m.id);
        var distance := v.distance;
        if m.value.distance.Some? && (distance.None? || m.value.distance.value < distance.value) {
          distance := m.value.distance;
        }
        candidates := candidates[m.id := Value(v.score + m.value.score, distance, v.queries + m.value.queries)];
        i := i + 1;
      }
      assert results[q][..|results[q]|] == results[q];
      assert results[..q + 1] == results[..q] + [results[q]];
      JoinAppend(results[..q], results[q]);
      q := q + 1;
    }
    assert results[..|results|] == results;
    merged := RankCandidates(candidates);
  }

  // ---------------------------------------------------------------- the order of queries does not matter

  function Without<T>(s: seq<T>, i: nat): seq<T>
    requires i < |s|
  {
    s[..i] + s[i + 1..]
  }

  lemma AddRotates(u: Value, v: Value, w: Value)
    ensures Add(Add(u, v), w) == Add(Add(u, w), v)
  {
  }

  lemma ValueWithout(matches: seq<Match>, i: nat, id: nat)
    requires i < |matches|
    ensures ValueOf(matches, id) == Add(ValueOf(Without(matches, i), id), Share(matches[i], id))
  {
    var a, m, b := matches[..i], matches[i], matches[i + 1..];
    assert matches == a + [m] + b;
    ValueConcat(a + [m], b, id);
    ListsSnoc(a, m, id);
    ValueConcat(a, b, id);
    AddRotates(ValueOf(a, id), Share(m, id), ValueOf(b, id));
  }

  lemma CancelOne<T>(a: multiset<T>, b: multiset<T>, x: T)
    requires a + multiset{x} == b + multiset{x}
    ensures a == b
  {
    assert a == (a + multiset{x}) - multiset{x};
    assert b == (b + multiset{x}) - multiset{x};
  }

  lemma {:induction false} ValuePermutes(a: seq<Match>, b: seq<Match>, id: nat)
    requires multiset(a) == multiset(b)
    ensures ValueOf(a, id) == ValueOf(b, id)
    decreases |a|
  {
    if a == [] {
      assert |multiset(b)| == 0;
      assert b == [];
    } else {
      var n := |a| - 1;
      assert a == a[..n] + [a[n]];
      assert a[n] in multiset(a) && a[n] in b;
      var i :| 0 <= i < |b| && b[i] == a[n];
      assert b == b[..i] + [b[i]] + b[i + 1..];
      assert multiset(b) == multiset(Without(b, i)) + multiset{b[i]};
      CancelOne(multiset(a[..n]), multiset(Without(b, i)), a[n]);
      ValuePermutes(a[..n], Without(b, i), id);
      ValueWithout(b, i, id);
    }
  }

  lemma {:induction false} JoinPermutes(a: seq<seq<Match>>, b: seq<seq<Match>>)
    requires multiset(a) == multiset(b)
    ensures multiset(Join(a)) == multiset(Join(b))
    decreases |a|
  {
    if a == [] {
      assert |multiset(b)| == 0;
      assert b == [];
    } else {
      assert a == [a[0]] + a[1..];
      assert a[0] in multiset(a) && a[0] in b;
      var i :| 0 <= i < |b| && b[i] == a[0];
      assert b == b[..i] + [b[i]] + b[i + 1..];
      assert multiset(b) == multiset(Without(b, i)) + multiset{b[i]};
      CancelOne(multiset(a[1..]), multiset(Without(b, i)), a[0]);
      JoinPermutes(a[1..], Without(b, i));
      JoinWithout(b, i);
    }
  }

  lemma {:induction false} JoinConcat(a: seq<seq<Match>>, b: seq<seq<Match>>)
    ensures Join(a + b) == Join(a) + Join(b)
    decreases |b|
  {
    if b == [] {
      assert a + b == a;
    } else {
      var n := |b| - 1;
      assert a + b == (a + b[..n]) + [b[n]] && b == b[..n] + [b[n]];
      JoinConcat(a, b[..n]);
      JoinAppend(a + b[..n], b[n]);
      JoinAppend(b[..n], b[n]);
    }
  }

  lemma JoinAround(head: seq<seq<Match>>, middle: seq<Match>, tail: seq<seq<Match>>)
    ensures multiset(Join(head + [middle] + tail)) == multiset(Join(head + tail)) + multiset(middle)
  {
    JoinConcat(head + [middle], tail);
    JoinAppend(head, middle);
    JoinConcat(head, tail);
    assert Join(head + [middle] + tail) == Join(head) + middle + Join(tail);
  }

  lemma Reassemble<T>(s: seq<T>, i: nat)
    requires i < |s|
    ensures s[..i] + [s[i]] + s[i + 1..] == s && s[..i] + s[i + 1..] == Without(s, i)
  {
  }

  lemma JoinWithout(b: seq<seq<Match>>, i: nat)
    requires i < |b|
    ensures multiset(Join(b)) == multiset(Join(Without(b, i))) + multiset(b[i])
  {
    JoinAround(b[..i], b[i], b[i + 1..]);
    Reassemble(b, i);
  }

  lemma ListsPermute(a: seq<Match>, b: seq<Match>, id: nat)
    requires multiset(a) == multiset(b)
    ensures Lists(a, id) ==> Lists(b, id)
  {
    if i :| 0 <= i < |a| && a[i].id == id {
      assert a[i] in multiset(a) && a[i] in b;
      var j :| 0 <= j < |b| && b[j] == a[i];
      assert b[j].id == id;
    }
  }

  /** However the queries are ordered, the merged list is the same, scores, distances and order included. */
  lemma MergeIgnoresQueryOrder(a: seq<seq<Match>>, b: seq<seq<Match>>, x: seq<Match>, y: seq<Match>)
    requires multiset(a) == multiset(b) && IsMerge(Join(a), x) && IsMerge(Join(b), y)
    ensures x == y
  {
    JoinPermutes(a, b);
    var c :| Merging(c, Join(a)) && Lays(c, x);
    var d :| Merging(d, Join(b)) && Lays(d, y);
    MergingIsUnique(Join(a), Join(b), c, d);
    LaysIsUnique(c, x, y);
  }

  lemma MergingIsUnique(a: seq<Match>, b: seq<Match>, c: map<nat, Value>, d: map<nat, Value>)
    requires multiset(a) == multiset(b) && Merging(c, a) && Merging(d, b)
    ensures c == d
  {
    forall id
      ensures id in c <==> id in d
      ensures id in c ==> c[id] == d[id]
    {
      ListsPermute(a, b, id);
      ListsPermute(b, a, id);
      ValuePermutes(a, b, id);
    }
  }

  lemma LaysIsUnique(c: map<nat, Value>, x: seq<Match>, y: seq<Match>)
    requires Lays(c, x) && Lays(c, y)
    ensures x == y
  {
    forall m
      ensures m in x <==> m in y
    {
      if m in x {
        assert m == Match(m.id, c[m.id]);
      }
      if m in y {
        assert m == Match(m.id, c[m.id]);
      }
    }
    RankedIsUnique(x, y);
  }

  // ---------------------------------------------------------------- end to end

  datatype Angle = Angle(semantic: seq<Hit>, lexical: seq<nat>)

  /** Every ranked list behind a search, two for each query. */
  function AllLists(angles: seq<Angle>): seq<seq<nat>> {
    if angles == [] then []
    else AllLists(angles[..|angles| - 1]) + [Ids(angles[|angles| - 1].semantic), angles[|angles| - 1].lexical]
  }

  lemma {:induction false} AllListsExactly(angles: seq<Angle>, q: nat)
    requires q < |angles|
    ensures |AllLists(angles)| == 2 * |angles|
    ensures AllLists(angles)[2 * q] == Ids(angles[q].semantic)
    ensures AllLists(angles)[2 * q + 1] == angles[q].lexical
    decreases |angles|
  {
    var n := |angles| - 1;
    if n > 0 {
      AllListsExactly(angles[..n], if q < n then q else 0);
    }
  }

  ghost predicate IsFuse(angle: Angle, query: nat, matches: seq<Match>) {
    exists c :: Fusing(c, angle.semantic, angle.lexical, query) && Lays(c, matches)
  }

  lemma {:induction false} OneMatchCounts(s: seq<Match>, i: nat)
    requires i < |s| && OneEach(s)
    ensures ValueOf(s, s[i].id) == s[i].value
    decreases |s|
  {
    var n := |s| - 1;
    assert s == s[..n] + [s[n]];
    ListsSnoc(s[..n], s[n], s[i].id);
    if i == n {
      assert !Lists(s[..n], s[n].id);
      UnlistedIsZero(s[..n], s[n].id);
    } else {
      OneMatchCounts(s[..n], i);
    }
  }

  /** The matches of one query say about a node what its two lists say. */
  lemma FusedScore(angle: Angle, query: nat, matches: seq<Match>, id: nat)
    requires IsFuse(angle, query, matches)
    ensures ValueOf(matches, id).score == ListScore(Ids(angle.semantic), id) + ListScore(angle.lexical, id)
    ensures Lists(matches, id) <==> id in Ids(angle.semantic) || id in angle.lexical
  {
    var c :| Fusing(c, angle.semantic, angle.lexical, query) && Lays(c, matches);
    if id in c {
      var i :| 0 <= i < |matches| && matches[i] == Match(id, c[id]);
      OneMatchCounts(matches, i);
    } else {
      assert !Lists(matches, id);
      UnlistedIsZero(matches, id);
      ListScoreAbsent(Ids(angle.semantic), id);
      ListScoreAbsent(angle.lexical, id);
    }
  }

  lemma {:induction false} ValueConcat(a: seq<Match>, b: seq<Match>, id: nat)
    ensures ValueOf(a + b, id) == Add(ValueOf(a, id), ValueOf(b, id))
    ensures Lists(a + b, id) <==> Lists(a, id) || Lists(b, id)
    decreases |b|
  {
    if b == [] {
      assert a + b == a;
    } else {
      var n := |b| - 1;
      assert a + b == (a + b[..n]) + [b[n]] && b == b[..n] + [b[n]];
      ValueConcat(a, b[..n], id);
      ListsSnoc(a + b[..n], b[n], id);
      ListsSnoc(b[..n], b[n], id);
      AddAssociates(ValueOf(a, id), ValueOf(b[..n], id), Share(b[n], id));
    }
  }

  /** The matches of every query. */
  ghost predicate AreFused(angles: seq<Angle>, results: seq<seq<Match>>) {
    |angles| == |results| && forall q :: 0 <= q < |angles| ==> IsFuse(angles[q], q, results[q])
  }

  /** One query finds a node. */
  ghost predicate Finds(angle: Angle, id: nat) {
    (exists i :: 0 <= i < |angle.semantic| && angle.semantic[i].id == id) || id in angle.lexical
  }

  /** The queries that find a node. */
  ghost predicate FoundBy(angles: seq<Angle>, id: nat, queries: set<nat>) {
    forall q :: q in queries <==> 0 <= q < |angles| && Finds(angles[q], id)
  }

  /** The least distance any query saw the node at, if one did. */
  ghost predicate Closest(angles: seq<Angle>, id: nat, distance: Option<real>) {
    && (distance.Some? ==> exists q :: 0 <= q < |angles| && LastHit(angles[q].semantic, id, distance.value))
    && forall q, x :: 0 <= q < |angles| && LastHit(angles[q].semantic, id, x) ==> distance.Some? && distance.value <= x
  }

  /** The matches of one query keep the distance of a node's last hit and name the query. */
  lemma FusedWhole(angle: Angle, query: nat, matches: seq<Match>, id: nat)
    requires IsFuse(angle, query, matches)
    ensures ValueOf(matches, id).distance == LastDistance(angle.semantic, id)
    ensures ValueOf(matches, id).queries == if Finds(angle, id) then {query} else {}
  {
    var c :| Fusing(c, angle.semantic, angle.lexical, query) && Lays(c, matches);
    FindsExactly(angle, id);
    if id in c {
      var i :| 0 <= i < |matches| && matches[i] == Match(id, c[id]);
      OneMatchCounts(matches, i);
    } else {
      assert !Lists(matches, id);
      UnlistedIsZero(matches, id);
      NoDistance(angle.semantic, id);
    }
  }

  lemma FindsExactly(angle: Angle, id: nat)
    ensures Finds(angle, id) <==> id in Ids(angle.semantic) || id in angle.lexical
  {
    if i :| 0 <= i < |angle.semantic| && angle.semantic[i].id == id {
      assert Ids(angle.semantic)[i] == id;
    }
  }

  lemma CloserStill(angles: seq<Angle>, angle: Angle, id: nat, distance: Option<real>)
    requires Closest(angles, id, distance)
    ensures Closest(angles + [angle], id, Nearest(distance, LastDistance(angle.semantic, id)))
  {
    LastDistanceExactly(angle.semantic, id);
    var all, d := angles + [angle], Nearest(distance, LastDistance(angle.semantic, id));
    assert all[|angles|] == angle && forall q :: 0 <= q < |angles| ==> all[q] == angles[q];
    if d.Some? {
      if d == distance {
        var q :| 0 <= q < |angles| && LastHit(angles[q].semantic, id, d.value);
        assert LastHit(all[q].semantic, id, d.value);
      } else {
        assert LastHit(all[|angles|].semantic, id, d.value);
      }
    }
    forall q, x | 0 <= q < |all| && LastHit(all[q].semantic, id, x)
      ensures d.Some? && d.value <= x
    {
      if q < |angles| {
        assert LastHit(angles[q].semantic, id, x);
      }
    }
  }

  lemma {:induction false} JoinedWhole(angles: seq<Angle>, results: seq<seq<Match>>, id: nat)
    requires AreFused(angles, results)
    ensures Closest(angles, id, ValueOf(Join(results), id).distance)
    ensures FoundBy(angles, id, ValueOf(Join(results), id).queries)
    decreases |angles|
  {
    if angles != [] {
      var n := |angles| - 1;
      FusedInit(angles, results);
      JoinedWhole(angles[..n], results[..n], id);
      LastJoined(results, id);
      OneMoreAngle(angles[..n], angles[n], results[n], id, ValueOf(Join(results[..n]), id));
      assert angles == angles[..n] + [angles[n]];
    }
  }

  lemma OneMoreAngle(angles: seq<Angle>, angle: Angle, matches: seq<Match>, id: nat, v: Value)
    requires IsFuse(angle, |angles|, matches)
    requires Closest(angles, id, v.distance) && FoundBy(angles, id, v.queries)
    ensures Closest(angles + [angle], id, Add(v, ValueOf(matches, id)).distance)
    ensures FoundBy(angles + [angle], id, Add(v, ValueOf(matches, id)).queries)
  {
    FusedWhole(angle, |angles|, matches, id);
    CloserStill(angles, angle, id, v.distance);
    FoundStill(angles, angle, id, v.queries);
  }

  lemma FoundStill(angles: seq<Angle>, angle: Angle, id: nat, queries: set<nat>)
    requires FoundBy(angles, id, queries)
    ensures FoundBy(angles + [angle], id, queries + if Finds(angle, id) then {|angles|} else {})
  {
    var all := angles + [angle];
    assert all[|angles|] == angle && forall q :: 0 <= q < |angles| ==> all[q] == angles[q];
  }

  lemma FusedInit(angles: seq<Angle>, results: seq<seq<Match>>)
    requires AreFused(angles, results) && angles != []
    ensures AreFused(angles[..|angles| - 1], results[..|angles| - 1])
    ensures IsFuse(angles[|angles| - 1], |angles| - 1, results[|angles| - 1])
  {
  }

  lemma {:induction false} JoinedScore(angles: seq<Angle>, results: seq<seq<Match>>, id: nat)
    requires AreFused(angles, results)
    ensures ValueOf(Join(results), id).score == ScoreOver(AllLists(angles), id)
    ensures Lists(Join(results), id) <==> InSomeList(AllLists(angles), id)
    decreases |angles|
  {
    if angles != [] {
      var n := |angles| - 1;
      FusedInit(angles, results);
      JoinedScore(angles[..n], results[..n], id);
      FusedScore(angles[n], n, results[n], id);
      TwoMoreLists(AllLists(angles[..n]), Ids(angles[n].semantic), angles[n].lexical, id);
      LastJoined(results, id);
    }
  }

  lemma LastJoined(results: seq<seq<Match>>, id: nat)
    requires results != []
    ensures var n := |results| - 1;
      && ValueOf(Join(results), id) == Add(ValueOf(Join(results[..n]), id), ValueOf(results[n], id))
      && (Lists(Join(results), id) <==> Lists(Join(results[..n]), id) || Lists(results[n], id))
  {
    var n := |results| - 1;
    assert results == results[..n] + [results[n]];
    JoinAppend(results[..n], results[n]);
    ValueConcat(Join(results[..n]), results[n], id);
  }

  lemma TwoMoreLists(lists: seq<seq<nat>>, s: seq<nat>, l: seq<nat>, id: nat)
    ensures ScoreOver(lists + [s, l], id) == ScoreOver(lists, id) + ListScore(s, id) + ListScore(l, id)
    ensures InSomeList(lists + [s, l], id) <==> id in s || id in l || InSomeList(lists, id)
  {
    var all := lists + [s, l];
    assert all[..|all| - 1] == lists + [s] && (lists + [s])[..|lists|] == lists;
    assert all[|lists|] == s && all[|lists| + 1] == l;
    if InSomeList(lists, id) {
      var k :| 0 <= k < |lists| && id in lists[k];
      assert id in all[k];
    }
  }

  /**
  A search lists each node found by any query once, best score first and equal scores by id, and scores it with
  the sum of reciprocal ranks over every list of every query.
  */
  lemma SearchScores(angles: seq<Angle>, results: seq<seq<Match>>, merged: seq<Match>)
    requires AreFused(angles, results)
    requires IsMerge(Join(results), merged)
    ensures OneEach(merged)
    ensures forall i, j :: 0 <= i < j < |merged| ==>
      var a, b := merged[i].value.score, merged[j].value.score; a > b || (a == b && merged[i].id < merged[j].id)
    ensures forall i :: 0 <= i < |merged| ==> merged[i].value.score == ScoreOver(AllLists(angles), merged[i].id)
    ensures forall id :: Lists(merged, id) <==> InSomeList(AllLists(angles), id)
  {
    var c :| Merging(c, Join(results)) && Lays(c, merged);
    forall i | 0 <= i < |merged|
      ensures merged[i].value.score == ScoreOver(AllLists(angles), merged[i].id)
    {
      JoinedScore(angles, results, merged[i].id);
    }
    forall id
      ensures Lists(merged, id) <==> InSomeList(AllLists(angles), id)
    {
      JoinedScore(angles, results, id);
      LaidExactly(c, merged, id);
    }
  }

  /**
  A listed node carries the least distance any query saw it at, none when no query hit it semantically, and names
  the queries that found it.
  */
  lemma SearchEvidence(angles: seq<Angle>, results: seq<seq<Match>>, merged: seq<Match>, i: nat)
    requires AreFused(angles, results) && IsMerge(Join(results), merged) && i < |merged|
    ensures Closest(angles, merged[i].id, merged[i].value.distance)
    ensures FoundBy(angles, merged[i].id, merged[i].value.queries)
  {
    JoinedWhole(angles, results, merged[i].id);
  }

  lemma LaidExactly(c: map<nat, Value>, merged: seq<Match>, id: nat)
    requires Lays(c, merged)
    ensures Lists(merged, id) <==> id in c
  {
  }

  /** A node above another in every list that contains the other comes before it in the result. */
  lemma DominantComesFirst(angles: seq<Angle>, results: seq<seq<Match>>, merged: seq<Match>, i: nat, j: nat)
    requires AreFused(angles, results)
    requires IsMerge(Join(results), merged) && i < |merged| && j < |merged|
    requires Dominates(AllLists(angles), merged[i].id, merged[j].id)
    ensures i < j
  {
    SearchScores(angles, results, merged);
    assert Lists(merged, merged[j].id);
    assert j < i ==> Precedes(merged[j], merged[i]);
    DominantScoresHigher(AllLists(angles), merged[i].id, merged[j].id);
  }
}
