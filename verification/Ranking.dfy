/**
Graded ranked-retrieval metrics over exact reals
(src/scs/evaluation/search.py:148-209 and 401-420, src/scs/evaluation/query.py:98-113).

The logarithmic discount is a parameter of which only positivity and decrease are used.
*/
module Ranking {
  import opened Outcome

  datatype Judgment = Judgment(name: string, path: Option<string>, relevance: nat)

  datatype Found = Found(name: Option<string>, path: Option<string>)

  datatype Metrics = Metrics(recall: real, reciprocalRank: real, ndcg: real, retrieved: nat, total: nat)

  // ---------------------------------------------------------------- gains

  function Pow2(n: nat): nat {
    if n == 0 then 1 else 2 * Pow2(n - 1)
  }

  function Gain(grade: nat): real {
    (Pow2(grade) - 1) as real
  }

  lemma {:induction false} GainMonotone(a: nat, b: nat)
    requires a <= b
    ensures 0.0 <= Gain(a) <= Gain(b)
    ensures a > 0 ==> Gain(a) > 0.0
    decreases b
  {
    if a < b {
      GainMonotone(a, b - 1);
    } else if a > 0 {
      GainMonotone(a - 1, b - 1);
    }
  }

  lemma DoubledProduct(x: real, y: real, z: real, w: real)
    requires z + 1.0 == (x + 1.0) * (y + 1.0) && w == 2.0 * x + 1.0
    ensures 2.0 * z + 2.0 == (w + 1.0) * (y + 1.0)
  {
    assert (2.0 * (x + 1.0)) * (y + 1.0) == 2.0 * ((x + 1.0) * (y + 1.0));
  }

  /** A grade more doubles what is one more than the gain, and grades added multiply it. */
  lemma {:induction false} GainExactly(a: nat, b: nat)
    ensures Gain(0) == 0.0 && Gain(1) == 1.0 && Gain(a + 1) == 2.0 * Gain(a) + 1.0
    ensures Gain(a + b) + 1.0 == (Gain(a) + 1.0) * (Gain(b) + 1.0)
    decreases a
  {
    GainStep(a);
    GainStep(0);
    if a > 0 {
      GainExactly(a - 1, b);
      GainStep(a - 1);
      GainStep(a - 1 + b);
      DoubledProduct(Gain(a - 1), Gain(b), Gain(a - 1 + b), Gain(a));
    }
  }

  lemma GainStep(a: nat)
    ensures Gain(a + 1) == 2.0 * Gain(a) + 1.0
  {
  }

  /** Positive and decreasing by rank, from rank 1 on. */
  ghost predicate Discount(d: nat -> real) {
    && (forall r :: 1 <= r ==> d(r) > 0.0)
    && (forall r, s :: 1 <= r < s ==> d(s) < d(r))
  }

  function GainAt(grades: seq<nat>, i: nat): real {
    if i < |grades| then Gain(grades[i]) else 0.0
  }

  function Total(grades: seq<nat>, n: nat): real {
    if n == 0 then 0.0 else Total(grades, n - 1) + GainAt(grades, n - 1)
  }

  function Discounted(grades: seq<nat>, n: nat, d: nat -> real): real {
    Dot(Gains(grades), d, n)
  }

  function Gains(grades: seq<nat>): nat -> real {
    (i: nat) => GainAt(grades, i)
  }

  function Sum(g: nat -> real, n: nat): real {
    if n == 0 then 0.0 else Sum(g, n - 1) + g(n - 1)
  }

  function Dot(g: nat -> real, d: nat -> real, n: nat): real {
    if n == 0 then 0.0 else Dot(g, d, n - 1) + g(n - 1) * d(n)
  }

  function DiscountedGain(grades: seq<nat>, d: nat -> real): real {
    Discounted(grades, |grades|, d)
  }

  /** Equal gains at equal discounts add the same. */
  lemma DotStep(f: nat -> real, g: nat -> real, c: nat -> real, d: nat -> real, m: nat, n: nat)
    requires f(m) == g(n) && c(m + 1) == d(n + 1)
    ensures Dot(f, c, m + 1) - Dot(f, c, m) == Dot(g, d, n + 1) - Dot(g, d, n)
  {
    assert Dot(f, c, m + 1) == Dot(f, c, m) + f(m) * c(m + 1);
    assert Dot(g, d, n + 1) == Dot(g, d, n) + g(n) * d(n + 1);
  }

  lemma {:induction false} DiscountedPart(a: seq<nat>, b: seq<nat>, n: nat, d: nat -> real)
    requires n <= |a|
    ensures Discounted(a + b, n, d) == Discounted(a, n, d)
  {
    if n > 0 {
      DiscountedPart(a, b, n - 1, d);
      DotStep(Gains(a + b), Gains(a), d, d, n - 1, n - 1);
    }
  }

  lemma {:induction false} DiscountedRest(a: seq<nat>, b: seq<nat>, n: nat, d: nat -> real, later: nat -> real)
    requires forall r: nat :: later(r) == d(|a| + r)
    ensures Discounted(a + b, |a| + n, d) == Discounted(a, |a|, d) + Discounted(b, n, later)
    decreases n
  {
    if n == 0 {
      DiscountedPart(a, b, |a|, d);
    } else {
      DiscountedRest(a, b, n - 1, d, later);
      DotStep(Gains(a + b), Gains(b), d, later, |a| + n - 1, n - 1);
    }
  }

  /** A grade gains by its own rank alone: what is appended to a list adds its gain at the later discounts. */
  lemma DiscountedExactly(a: seq<nat>, b: seq<nat>, d: nat -> real, later: nat -> real)
    requires forall r: nat :: later(r) == d(|a| + r)
    ensures DiscountedGain(a + b, d) == DiscountedGain(a, d) + DiscountedGain(b, later)
    ensures |b| == 1 ==> DiscountedGain(b, later) == Gain(b[0]) * later(1)
  {
    DiscountedRest(a, b, |b|, d, later);
    assert |a + b| == |a| + |b|;
    if |b| == 1 {
      OneGrade(b, later);
    }
  }

  lemma OneGrade(b: seq<nat>, d: nat -> real)
    requires |b| == 1
    ensures DiscountedGain(b, d) == Gain(b[0]) * d(1)
  {
    assert Dot(Gains(b), d, 1) == Dot(Gains(b), d, 0) + GainAt(b, 0) * d(1);
  }

  // ---------------------------------------------------------------- sorting

  ghost predicate Descending(s: seq<nat>) {
    forall i, j :: 0 <= i < j < |s| ==> s[j] <= s[i]
  }

  function Insert(x: nat, s: seq<nat>): seq<nat> {
    if s == [] || s[0] <= x then [x] + s else [s[0]] + Insert(x, s[1..])
  }

  function SortDescending(s: seq<nat>): seq<nat> {
    if s == [] then [] else Insert(s[0], SortDescending(s[1..]))
  }

  lemma DescendingCons(head: nat, tail: seq<nat>)
    requires Descending(tail) && (tail != [] ==> tail[0] <= head)
    ensures Descending([head] + tail)
  {
  }

  lemma {:induction false} InsertSorts(x: nat, s: seq<nat>)
    requires Descending(s)
    ensures Descending(Insert(x, s)) && Insert(x, s) != []
    ensures Insert(x, s)[0] == x || (s != [] && Insert(x, s)[0] == s[0])
    decreases |s|
  {
    if s == [] || s[0] <= x {
      DescendingCons(x, s);
    } else {
      InsertSorts(x, s[1..]);
      assert |s| > 1 ==> s[1] <= s[0];
      DescendingCons(s[0], Insert(x, s[1..]));
    }
  }

  lemma {:induction false} InsertKeeps(x: nat, s: seq<nat>)
    ensures multiset(Insert(x, s)) == multiset{x} + multiset(s)
    ensures |Insert(x, s)| == |s| + 1
    decreases |s|
  {
    if s != [] && s[0] > x {
      assert s == [s[0]] + s[1..];
      InsertKeeps(x, s[1..]);
    }
  }

  lemma {:induction false} SortSorts(s: seq<nat>)
    ensures Descending(SortDescending(s)) && multiset(SortDescending(s)) == multiset(s)
    ensures |SortDescending(s)| == |s|
    decreases |s|
  {
    if s != [] {
      assert s == [s[0]] + s[1..];
      SortSorts(s[1..]);
      InsertSorts(s[0], SortDescending(s[1..]));
      InsertKeeps(s[0], SortDescending(s[1..]));
    }
  }

  // ---------------------------------------------------------------- the largest sum of n grades

  lemma {:induction false} TotalHead(s: seq<nat>, n: nat)
    requires s != [] && n > 0
    ensures Total(s, n) == Gain(s[0]) + Total(s[1..], n - 1)
  {
    if n > 1 {
      TotalHead(s, n - 1);
      assert n - 1 < |s| ==> s[1..][n - 2] == s[n - 1];
    }
  }

  lemma {:induction false} TotalPrefix(s: seq<nat>, t: seq<nat>, n: nat)
    requires n <= |s| && n <= |t| && s[..n] == t[..n]
    ensures Total(s, n) == Total(t, n)
  {
    if n > 0 {
      assert s[..n][..n - 1] == s[..n - 1] && t[..n][..n - 1] == t[..n - 1];
      TotalPrefix(s, t, n - 1);
      assert s[n - 1] == s[..n][n - 1] == t[n - 1];
    }
  }

  lemma {:induction false} TotalGrows(s: seq<nat>, m: nat, n: nat)
    requires m <= n
    ensures 0.0 <= Total(s, m) <= Total(s, n)
    decreases n
  {
    if n > 0 {
      if n - 1 < |s| {
        GainMonotone(0, s[n - 1]);
      }
      TotalGrows(s, if m == n then m - 1 else m, n - 1);
    }
  }

  function Without(s: seq<nat>, i: nat): seq<nat>
    requires i < |s|
  {
    s[..i] + s[i + 1..]
  }

  lemma {:induction false} TotalWithout(s: seq<nat>, i: nat)
    requires i < |s|
    ensures Total(s, |s|) == Gain(s[i]) + Total(Without(s, i), |s| - 1)
    decreases |s|
  {
    TotalHead(s, |s|);
    if i == 0 {
      assert Without(s, 0) == s[1..];
    } else {
      var rest := Without(s, i);
      assert rest[0] == s[0] && rest[1..] == Without(s[1..], i - 1);
      TotalWithout(s[1..], i - 1);
      TotalHead(rest, |s| - 1);
    }
  }

  lemma WithoutMultiset(s: seq<nat>, i: nat)
    requires i < |s|
    ensures multiset(s) == multiset(Without(s, i)) + multiset{s[i]}
  {
    assert s == s[..i] + [s[i]] + s[i + 1..];
  }

  lemma {:induction false} MultisetLength(a: seq<nat>, s: seq<nat>)
    requires multiset(a) <= multiset(s)
    ensures |a| <= |s|
  {
    assert |multiset(a)| <= |multiset(s)| by {
      var rest := multiset(s) - multiset(a);
      assert multiset(s) == multiset(a) + rest;
    }
  }

  /** An occurrence of the largest grade, when there is one. */
  lemma SomeOccurrence(a: seq<nat>, best: nat) returns (i: nat)
    requires a != []
    ensures i < |a| && (a[i] == best || best !in a)
  {
    i := 0;
    if best in a {
      i :| i < |a| && a[i] == best;
    }
  }

  lemma HeadIsBest(a: seq<nat>, i: nat, s: seq<nat>)
    requires i < |a| && s != [] && Descending(s) && multiset(a) <= multiset(s)
    ensures Gain(a[i]) <= Gain(s[0])
  {
    assert a[i] in multiset(a);
    assert a[i] in multiset(s);
    assert a[i] in s;
    GainMonotone(a[i], s[0]);
  }

  /** No choice of grades has a larger total gain than as many of the best ones. */
  lemma {:induction false} BestTotal(a: seq<nat>, s: seq<nat>)
    requires Descending(s) && multiset(a) <= multiset(s)
    ensures |a| <= |s| && Total(a, |a|) <= Total(s, |a|)
    decreases |s|
  {
    MultisetLength(a, s);
    if a != [] {
      var i := SomeOccurrence(a, s[0]);
      HeadIsBest(a, i, s);
      WithoutFits(a, i, s);
      BestTotal(Without(a, i), s[1..]);
      TotalWithout(a, i);
      TotalHead(s, |a|);
    }
  }

  lemma WithoutFits(a: seq<nat>, i: nat, s: seq<nat>)
    requires i < |a| && s != [] && multiset(a) <= multiset(s)
    requires a[i] == s[0] || s[0] !in a
    ensures multiset(Without(a, i)) <= multiset(s[1..])
  {
    WithoutMultiset(a, i);
    assert s == [s[0]] + s[1..];
    var rest := multiset(Without(a, i));
    forall x: nat
      ensures rest[x] <= multiset(s[1..])[x]
    {
      assert multiset(s)[x] == multiset(s[1..])[x] + (if x == s[0] then 1 else 0);
      assert multiset(a)[x] == rest[x] + (if x == a[i] then 1 else 0);
      assert multiset(a)[x] <= multiset(s)[x];
      if a[i] != s[0] && x == s[0] {
        assert s[0] !in multiset(a);
      }
    }
  }

  // ---------------------------------------------------------------- dominance survives discounting

  /** Every prefix of one list gains at most as much as the same prefix of another. */
  ghost predicate Dominated(a: seq<nat>, b: seq<nat>) {
    forall m :: 0 <= m ==> Total(a, m) <= Total(b, m)
  }

  lemma AbelStep(dot: real, sum: real, x: real, last: real, next: real)
    requires dot >= last * sum && sum >= 0.0 && next <= last
    ensures dot + x * next >= next * (sum + x)
  {
  }

  /** Summation by parts: when no prefix sum is negative, the discounted sum is at least the last discount times the sum. */
  lemma {:induction false} Abel(g: nat -> real, d: nat -> real, n: nat)
    requires Discount(d) && n > 0 && forall m :: 0 <= m ==> Sum(g, m) >= 0.0
    ensures Dot(g, d, n) >= d(n) * Sum(g, n)
  {
    var x, sum, dot := g(n - 1), Sum(g, n - 1), Dot(g, d, n - 1);
    assert Sum(g, n) == sum + x && Dot(g, d, n) == dot + x * d(n);
    if n == 1 {
      AbelStep(dot, sum, x, d(1), d(1));
    } else {
      Abel(g, d, n - 1);
      assert d(n) < d(n - 1);
      AbelStep(dot, sum, x, d(n - 1), d(n));
    }
  }

  /** What one list gains more than another, rank by rank. */
  function Lead(a: seq<nat>, b: seq<nat>): nat -> real {
    (i: nat) => GainAt(b, i) - GainAt(a, i)
  }

  lemma {:induction false} LeadSums(a: seq<nat>, b: seq<nat>, n: nat)
    ensures Sum(Lead(a, b), n) == Total(b, n) - Total(a, n)
  {
    if n > 0 {
      LeadSums(a, b, n - 1);
    }
  }

  lemma Distribute(x: real, y: real, gap: real, d: real)
    requires gap == y - x
    ensures gap * d == y * d - x * d
  {
  }

  /** Discounting is linear. */
  lemma {:induction false} DotDifference(f: nat -> real, g: nat -> real, gap: nat -> real, d: nat -> real, n: nat)
    requires forall i: nat :: gap(i) == g(i) - f(i)
    ensures Dot(gap, d, n) == Dot(g, d, n) - Dot(f, d, n)
  {
    if n > 0 {
      DotDifference(f, g, gap, d, n - 1);
      Distribute(f(n - 1), g(n - 1), gap(n - 1), d(n));
    }
  }

  lemma LeadPositive(d: real, lead: real)
    requires d > 0.0 && lead >= 0.0
    ensures d * lead >= 0.0
  {
  }

  lemma DiscountKeepsDominance(a: seq<nat>, b: seq<nat>, n: nat, d: nat -> real)
    requires Discount(d) && Dominated(a, b)
    ensures Discounted(a, n, d) <= Discounted(b, n, d)
  {
    var g := Lead(a, b);
    forall m | 0 <= m
      ensures Sum(g, m) >= 0.0
    {
      LeadSums(a, b, m);
      assert Total(a, m) <= Total(b, m);
    }
    DotDifference(Gains(a), Gains(b), g, d, n);
    if n > 0 {
      Abel(g, d, n);
      LeadPositive(d(n), Sum(g, n));
    }
  }

  // ---------------------------------------------------------------- observed against ideal

  function Nonzero(grades: seq<nat>): seq<nat> {
    if grades == [] then []
    else Nonzero(grades[..|grades| - 1]) + (if grades[|grades| - 1] > 0 then [grades[|grades| - 1]] else [])
  }

  lemma {:induction false} NonzeroTotal(grades: seq<nat>)
    ensures Total(Nonzero(grades), |Nonzero(grades)|) == Total(grades, |grades|)
    ensures |Nonzero(grades)| <= |grades|
    decreases |grades|
  {
    if grades != [] {
      var n := |grades| - 1;
      var init, more := Nonzero(grades[..n]), Nonzero(grades);
      NonzeroTotal(grades[..n]);
      TotalPrefix(grades, grades[..n], n);
      if grades[n] > 0 {
        assert more == init + [grades[n]];
        TotalPrefix(more, init, |init|);
        assert Total(more, |more|) == Total(more, |init|) + Gain(grades[n]);
      } else {
        assert more == init && Gain(grades[n]) == 0.0;
      }
    }
  }

  lemma {:induction false} NonzeroPrefix(grades: seq<nat>, m: nat)
    requires m <= |grades|
    ensures multiset(Nonzero(grades[..m])) <= multiset(Nonzero(grades))
    decreases |grades|
  {
    if m < |grades| {
      assert grades[..|grades| - 1][..m] == grades[..m];
      NonzeroPrefix(grades[..|grades| - 1], m);
    } else {
      assert grades[..m] == grades;
    }
  }

  /** Past the end of a list nothing more is gained. */
  lemma {:induction false} TotalFlat(grades: seq<nat>, n: nat)
    requires n >= |grades|
    ensures Total(grades, n) == Total(grades, |grades|)
    decreases n
  {
    if n > |grades| {
      TotalFlat(grades, n - 1);
    }
  }

  lemma {:induction false} DiscountedFlat(grades: seq<nat>, n: nat, d: nat -> real)
    requires n >= |grades|
    ensures Discounted(grades, n, d) == DiscountedGain(grades, d)
    decreases n
  {
    if n > |grades| {
      DiscountedFlat(grades, n - 1, d);
    }
  }

  function Top(s: seq<nat>, k: nat): seq<nat> {
    if k <= |s| then s[..k] else s
  }

  lemma PrefixDominated(grades: seq<nat>, ideal: seq<nat>, n: nat)
    requires Descending(ideal) && multiset(Nonzero(grades)) <= multiset(ideal) && n <= |grades|
    ensures exists j :: 0 <= j <= n && j <= |ideal| && Total(grades, n) <= Total(ideal, j)
  {
    var part := grades[..n];
    TotalPrefix(grades, part, n);
    NonzeroPrefix(grades, n);
    NonzeroTotal(part);
    BestTotal(Nonzero(part), ideal);
  }

  lemma TopTotal(s: seq<nat>, k: nat, n: nat)
    requires n <= |s| && n <= k
    ensures Total(Top(s, k), n) == Total(s, n)
  {
  }

  lemma TopDominated(grades: seq<nat>, ideal: seq<nat>, k: nat, m: nat)
    requires Descending(ideal) && multiset(Nonzero(grades)) <= multiset(ideal)
    ensures Total(Top(grades, k), m) <= Total(Top(ideal, k), m)
  {
    var a, b := Top(grades, k), Top(ideal, k);
    var n := if m <= |a| then m else |a|;
    if m > |a| {
      TotalFlat(a, m);
    }
    TopTotal(grades, k, n);
    PrefixDominated(grades, ideal, n);
    var j :| 0 <= j <= n && j <= |ideal| && Total(grades, n) <= Total(ideal, j);
    TopTotal(ideal, k, j);
    TotalGrows(b, j, m);
  }

  /** The rearrangement inequality: no ranking of chosen judgments beats the ideal one, at any cutoff. */
  lemma ObservedNeverBeatsIdeal(grades: seq<nat>, ideal: seq<nat>, k: nat, d: nat -> real)
    requires Discount(d) && Descending(ideal) && multiset(Nonzero(grades)) <= multiset(ideal)
    ensures 0.0 <= DiscountedGain(Top(grades, k), d) <= DiscountedGain(Top(ideal, k), d)
  {
    var a, b := Top(grades, k), Top(ideal, k);
    forall m | 0 <= m
      ensures Total(a, m) <= Total(b, m)
    {
      TopDominated(grades, ideal, k, m);
    }
    var n := if |a| <= |b| then |b| else |a|;
    DiscountKeepsDominance(a, b, n, d);
    DiscountedFlat(a, n, d);
    DiscountedFlat(b, n, d);
    GainsNonnegative(a, |a|, d);
  }

  lemma {:induction false} GainsNonnegative(grades: seq<nat>, n: nat, d: nat -> real)
    requires Discount(d)
    ensures 0.0 <= Discounted(grades, n, d)
    ensures 0 < n <= |grades| && grades[n - 1] > 0 ==> 0.0 < Discounted(grades, n, d)
  {
    if n > 0 {
      GainsNonnegative(grades, n - 1, d);
      if n <= |grades| {
        GainMonotone(0, grades[n - 1]);
        GainMonotone(grades[n - 1], grades[n - 1]);
        assert d(n) > 0.0;
        LeadPositive(d(n), GainAt(grades, n - 1));
      }
    }
  }

  // ---------------------------------------------------------------- choosing each judgment at most once

  /** The grades of some chosen indexes, 0 where nothing was chosen. */
  function GradesOf(relevances: seq<nat>, picks: seq<Option<nat>>): seq<nat> {
    seq(|picks|, i requires 0 <= i < |picks| => GradeOf(relevances, picks[i]))
  }

  function GradeOf(relevances: seq<nat>, pick: Option<nat>): nat {
    if pick.Some? && pick.value < |relevances| then relevances[pick.value] else 0
  }

  ghost predicate OncePerJudgment(picks: seq<Option<nat>>, total: nat) {
    && (forall i :: 0 <= i < |picks| && picks[i].Some? ==> picks[i].value < total)
    && (forall i, j :: 0 <= i < j < |picks| && picks[i].Some? ==> picks[i] != picks[j])
  }

  function Drop(picks: seq<Option<nat>>, n: nat): seq<Option<nat>> {
    seq(|picks|, i requires 0 <= i < |picks| => if picks[i] == Some(n) then None else picks[i])
  }

  lemma {:induction false} NonzeroConcat(a: seq<nat>, b: seq<nat>)
    ensures Nonzero(a + b) == Nonzero(a) + Nonzero(b)
    decreases |b|
  {
    if b == [] {
      assert a + b == a;
    } else {
      assert (a + b)[..|a + b| - 1] == a + b[..|b| - 1];
      NonzeroConcat(a, b[..|b| - 1]);
    }
  }

  lemma NonzeroOne(grade: nat)
    ensures Nonzero([grade]) == if grade > 0 then [grade] else []
  {
    assert [grade][..0] == [];
  }

  lemma NonzeroAround(a: seq<nat>, grade: nat, b: seq<nat>)
    ensures Nonzero(a + [grade] + b) == Nonzero(a) + (if grade > 0 then [grade] else []) + Nonzero(b)
  {
    NonzeroConcat(a + [grade], b);
    NonzeroConcat(a, [grade]);
    NonzeroOne(grade);
  }

  /** Dropping one grade removes at most that grade. */
  lemma NonzeroUpdate(grades: seq<nat>, i: nat)
    requires i < |grades|
    ensures multiset(Nonzero(grades)) <= multiset(Nonzero(grades[i := 0])) + multiset{grades[i]}
  {
    var a, b := grades[..i], grades[i + 1..];
    assert grades == a + [grades[i]] + b && grades[i := 0] == a + [0] + b;
    NonzeroAround(a, grades[i], b);
    NonzeroAround(a, 0, b);
  }

  lemma {:induction false} AllZero(grades: seq<nat>)
    requires forall i :: 0 <= i < |grades| ==> grades[i] == 0
    ensures Nonzero(grades) == []
  {
    if grades != [] {
      AllZero(grades[..|grades| - 1]);
    }
  }

  lemma DropGrades(relevances: seq<nat>, picks: seq<Option<nat>>)
    requires relevances != [] && OncePerJudgment(picks, |relevances|)
    ensures var n := |relevances| - 1;
      var grades, fewer := GradesOf(relevances, picks), GradesOf(relevances[..n], Drop(picks, n));
      OncePerJudgment(Drop(picks, n), n)
      && (fewer == grades || exists i :: 0 <= i < |grades| && grades[i] == relevances[n] && fewer == grades[i := 0])
  {
  }

  /** Choosing each judgment at most once takes no grade more often than the judgments have it. */
  lemma {:induction false} PicksWithin(relevances: seq<nat>, picks: seq<Option<nat>>)
    requires OncePerJudgment(picks, |relevances|)
    ensures multiset(Nonzero(GradesOf(relevances, picks))) <= multiset(relevances)
    decreases |relevances|
  {
    var grades := GradesOf(relevances, picks);
    if relevances == [] {
      AllZero(grades);
    } else {
      var n := |relevances| - 1;
      DropGrades(relevances, picks);
      PicksWithin(relevances[..n], Drop(picks, n));
      assert relevances == relevances[..n] + [relevances[n]];
      var fewer := GradesOf(relevances[..n], Drop(picks, n));
      if fewer != grades {
        var i :| 0 <= i < |grades| && grades[i] == relevances[n] && fewer == grades[i := 0];
        NonzeroUpdate(grades, i);
      }
    }
  }

  function CountHits(picks: seq<Option<nat>>): nat {
    if picks == [] then 0 else CountHits(picks[..|picks| - 1]) + if picks[|picks| - 1].Some? then 1 else 0
  }

  /** The places of the hits. */
  function HitPlaces(picks: seq<Option<nat>>): set<nat> {
    set i | 0 <= i < |picks| && picks[i].Some?
  }

  lemma {:induction false} CountIsPlaces(picks: seq<Option<nat>>)
    ensures CountHits(picks) == |HitPlaces(picks)|
    decreases |picks|
  {
    if picks != [] {
      var n := |picks| - 1;
      CountIsPlaces(picks[..n]);
      assert HitPlaces(picks) == HitPlaces(picks[..n]) + if picks[n].Some? then {n} else {};
    }
  }

  lemma {:induction false} CountIsChosen(picks: seq<Option<nat>>)
    requires forall i, j :: 0 <= i < j < |picks| && picks[i].Some? ==> picks[i] != picks[j]
    ensures CountHits(picks) == |Chosen(picks)|
    decreases |picks|
  {
    if picks != [] {
      var n := |picks| - 1;
      CountIsChosen(picks[..n]);
      assert picks == picks[..n] + [picks[n]];
      ChosenSnoc(picks[..n], picks[n]);
    }
  }

  lemma {:induction false} HitsBounded(picks: seq<Option<nat>>, free: set<nat>)
    requires forall i :: 0 <= i < |picks| && picks[i].Some? ==> picks[i].value in free
    requires forall i, j :: 0 <= i < j < |picks| && picks[i].Some? ==> picks[i] != picks[j]
    ensures CountHits(picks) <= |free|
    decreases |picks|
  {
    if picks != [] {
      var n := |picks| - 1;
      HitsBounded(picks[..n], if picks[n].Some? then free - {picks[n].value} else free);
    }
  }

  function Indexes(n: nat): (r: set<nat>)
    ensures (forall i: nat :: i in r <==> i < n) && |r| == n
  {
    if n == 0 then {} else Indexes(n - 1) + {n - 1}
  }

  // ---------------------------------------------------------------- matching results with judgments

  predicate Agrees(j: Judgment, f: Found) {
    f.name == Some(j.name) && (j.path.None? || j.path == f.path)
  }

  /** The first judgment not yet matched that agrees with a result. */
  method MatchingJudgment(judgments: seq<Judgment>, f: Found, excluded: set<nat>) returns (r: Option<nat>)
    ensures r == Match(judgments, f, excluded, 0)
  {
    var i := 0;
    while i < |judgments|
      invariant 0 <= i <= |judgments| && Match(judgments, f, excluded, i) == Match(judgments, f, excluded, 0)
    {
      if i in excluded || f.name != Some(judgments[i].name) {
        i := i + 1;
        continue;
      }
      if judgments[i].path.None? || judgments[i].path == f.path {
        return Some(i);
      }
      i := i + 1;
    }
    r := None;
  }

  function Match(judgments: seq<Judgment>, f: Found, excluded: set<nat>, i: nat): (r: Option<nat>)
    ensures r.Some? ==> i <= r.value < |judgments| && r.value !in excluded && f.name == Some(judgments[r.value].name)
    ensures r.Some? ==> judgments[r.value].path.None? || judgments[r.value].path == f.path
    ensures forall j :: i <= j < |judgments| && j !in excluded && f.name == Some(judgments[j].name) ==>
      judgments[j].path.None? || judgments[j].path == f.path ==> r.Some? && r.value <= j
    decreases |judgments| - i
  {
    if i >= |judgments| then None
    else if i !in excluded && Agrees(judgments[i], f) then Some(i)
    else Match(judgments, f, excluded, i + 1)
  }

  function Chosen(picks: seq<Option<nat>>): set<nat> {
    set i | 0 <= i < |picks| && picks[i].Some? :: picks[i].value
  }

  /** Each result in turn takes the first judgment that is left. */
  function Picks(judgments: seq<Judgment>, results: seq<Found>): seq<Option<nat>> {
    if results == [] then []
    else
      var before := Picks(judgments, results[..|results| - 1]);
      before + [Match(judgments, results[|results| - 1], Chosen(before), 0)]
  }

  lemma {:induction false} PicksOnce(judgments: seq<Judgment>, results: seq<Found>)
    ensures |Picks(judgments, results)| == |results|
    ensures OncePerJudgment(Picks(judgments, results), |judgments|)
  {
    if results != [] {
      PicksOnce(judgments, results[..|results| - 1]);
      var before, all := Picks(judgments, results[..|results| - 1]), Picks(judgments, results);
      forall i, j | 0 <= i < j < |all| && all[i].Some?
        ensures all[i] != all[j]
      {
        if j == |before| {
          assert all[i].value in Chosen(before);
        }
      }
    }
  }

  /** A result that agrees with some judgment goes without one only when they have all been taken before it. */
  lemma UnmatchedExactly(judgments: seq<Judgment>, results: seq<Found>, f: Found)
    ensures var before := Picks(judgments, results);
      Picks(judgments, results + [f])[|before|].None? <==>
      forall j :: 0 <= j < |judgments| && f.name == Some(judgments[j].name) ==>
        judgments[j].path.None? || judgments[j].path == f.path ==> Some(j) in before
  {
  }

  function Relevances(judgments: seq<Judgment>): seq<nat> {
    seq(|judgments|, i requires 0 <= i < |judgments| => judgments[i].relevance)
  }

  function Ideal(judgments: seq<Judgment>): seq<nat> {
    SortDescending(Relevances(judgments))
  }

  function Grades(judgments: seq<Judgment>, results: seq<Found>): seq<nat> {
    GradesOf(Relevances(judgments), Picks(judgments, results))
  }

  function TopPicks(picks: seq<Option<nat>>, k: nat): seq<Option<nat>> {
    if k <= |picks| then picks[..k] else picks
  }

  lemma HitsWithin(judgments: seq<Judgment>, results: seq<Found>, k: nat)
    ensures CountHits(TopPicks(Picks(judgments, results), k)) <= |judgments|
  {
    PicksOnce(judgments, results);
    HitsBounded(TopPicks(Picks(judgments, results), k), Indexes(|judgments|));
  }

  lemma IdealIsPositive(judgments: seq<Judgment>, k: nat, d: nat -> real)
    requires Discount(d) && judgments != [] && k >= 1
    requires forall j :: 0 <= j < |judgments| ==> judgments[j].relevance >= 1
    ensures DiscountedGain(Top(Ideal(judgments), k), d) > 0.0
  {
    SortSorts(Relevances(judgments));
    var best := Top(Ideal(judgments), k);
    var last := best[|best| - 1];
    assert last in multiset(Ideal(judgments));
    assert last in Relevances(judgments);
    GainsNonnegative(best, |best|, d);
  }

  /** Observed gain never exceeds ideal gain. */
  lemma GainsCompare(judgments: seq<Judgment>, results: seq<Found>, k: nat, d: nat -> real)
    requires Discount(d)
    ensures 0.0 <= DiscountedGain(Top(Grades(judgments, results), k), d) <= DiscountedGain(Top(Ideal(judgments), k), d)
  {
    PicksOnce(judgments, results);
    SortSorts(Relevances(judgments));
    PicksWithin(Relevances(judgments), Picks(judgments, results));
    ObservedNeverBeatsIdeal(Grades(judgments, results), Ideal(judgments), k, d);
  }

  function Quotient(a: real, b: real): real {
    if b != 0.0 then a / b else 0.0
  }

  lemma QuotientBounded(a: real, b: real)
    requires 0.0 <= a <= b
    ensures 0.0 <= Quotient(a, b) <= 1.0
  {
  }

  /** The rank of the first relevant result, counted from 1. */
  function FirstHit(picks: seq<Option<nat>>): (r: Option<nat>)
    ensures r.Some? ==> 1 <= r.value <= |picks| && picks[r.value - 1].Some?
    ensures r.Some? ==> forall i :: 0 <= i < r.value - 1 ==> picks[i].None?
    ensures r.None? ==> forall i :: 0 <= i < |picks| ==> picks[i].None?
  {
    if picks == [] then None
    else
      var before := FirstHit(picks[..|picks| - 1]);
      if before.Some? then before
      else if picks[|picks| - 1].Some? then Some(|picks|)
      else None
  }

  lemma PicksSnoc(judgments: seq<Judgment>, results: seq<Found>, i: nat)
    requires i < |results|
    ensures Picks(judgments, results[..i + 1])
         == Picks(judgments, results[..i]) + [Match(judgments, results[i], Chosen(Picks(judgments, results[..i])), 0)]
  {
    assert results[..i + 1][..i] == results[..i];
  }

  lemma ChosenSnoc(picks: seq<Option<nat>>, pick: Option<nat>)
    ensures Chosen(picks + [pick]) == Chosen(picks) + (if pick.Some? then {pick.value} else {})
  {
    var all := picks + [pick];
    assert all[|picks|] == pick;
    assert forall i :: 0 <= i < |picks| ==> all[i] == picks[i];
  }

  /** What the loop has recorded after some results. */
  ghost predicate Recorded(
    relevances: seq<nat>, picks: seq<Option<nat>>, k: nat, matched: set<nat>, grades: seq<nat>, first: Option<nat>, retrieved: nat)
  {
    && OncePerJudgment(picks, |relevances|)
    && matched == Chosen(picks)
    && grades == GradesOf(relevances, picks)
    && first == FirstHit(picks)
    && retrieved == CountHits(TopPicks(picks, k))
  }

  lemma RecordMiss(
    relevances: seq<nat>, picks: seq<Option<nat>>, k: nat, matched: set<nat>, grades: seq<nat>, first: Option<nat>, retrieved: nat)
    requires Recorded(relevances, picks, k, matched, grades, first, retrieved)
    ensures Recorded(relevances, picks + [None], k, matched, grades + [0], first, retrieved)
  {
    ChosenSnoc(picks, None);
    TallySnoc(picks, None, k);
    GradesSnoc(relevances, picks, None);
  }

  lemma RecordHit(
    relevances: seq<nat>, picks: seq<Option<nat>>, k: nat, matched: set<nat>, grades: seq<nat>, first: Option<nat>, retrieved: nat, pick: nat)
    requires Recorded(relevances, picks, k, matched, grades, first, retrieved)
    requires OncePerJudgment(picks + [Some(pick)], |relevances|) && pick < |relevances|
    ensures Recorded(relevances, picks + [Some(pick)], k, matched + {pick}, grades + [relevances[pick]],
                     if first.None? then Some(|picks| + 1) else first,
                     if |picks| + 1 <= k then retrieved + 1 else retrieved)
  {
    ChosenSnoc(picks, Some(pick));
    TallySnoc(picks, Some(pick), k);
    GradesSnoc(relevances, picks, Some(pick));
  }

  lemma GradesSnoc(relevances: seq<nat>, picks: seq<Option<nat>>, pick: Option<nat>)
    ensures GradesOf(relevances, picks + [pick]) == GradesOf(relevances, picks) + [GradeOf(relevances, pick)]
  {
  }

  lemma TallySnoc(picks: seq<Option<nat>>, pick: Option<nat>, k: nat)
    ensures FirstHit(picks + [pick]) == if FirstHit(picks).None? && pick.Some? then Some(|picks| + 1) else FirstHit(picks)
    ensures CountHits(TopPicks(picks + [pick], k))
         == CountHits(TopPicks(picks, k)) + if pick.Some? && |picks| + 1 <= k then 1 else 0
  {
    FirstHitSnoc(picks, pick);
    TopPicksSnoc(picks, pick, k);
    CountSnoc(TopPicks(picks, k), pick);
  }

  lemma TopPicksSnoc(picks: seq<Option<nat>>, pick: Option<nat>, k: nat)
    ensures TopPicks(picks + [pick], k) == if |picks| + 1 <= k then TopPicks(picks, k) + [pick] else TopPicks(picks, k)
  {
  }

  lemma FirstHitSnoc(picks: seq<Option<nat>>, pick: Option<nat>)
    ensures FirstHit(picks + [pick]) == if FirstHit(picks).None? && pick.Some? then Some(|picks| + 1) else FirstHit(picks)
  {
  }

  lemma CountSnoc(picks: seq<Option<nat>>, pick: Option<nat>)
    ensures CountHits(picks + [pick]) == CountHits(picks) + if pick.Some? then 1 else 0
  {
  }

  method JudgeResults(judgments: seq<Judgment>, results: seq<Found>, k: nat)
    returns (matched: set<nat>, grades: seq<nat>, first: Option<nat>, retrieved: nat)
    ensures Recorded(Relevances(judgments), Picks(judgments, results), k, matched, grades, first, retrieved)
  {
    matched, grades, first, retrieved := {}, [], None, 0;
    var i := 0;
    ghost var picks: seq<Option<nat>> := [];
    while i < |results|
      invariant 0 <= i <= |results| && |picks| == i && picks == Picks(judgments, results[..i])
      invariant Recorded(Relevances(judgments), picks, k, matched, grades, first, retrieved)
    {
      var pick := MatchingJudgment(judgments, results[i], matched);
      PickNext(judgments, results, i, picks, pick);
      if pick.None? {
        RecordMiss(Relevances(judgments), picks, k, matched, grades, first, retrieved);
        grades := grades + [0];
      } else {
        RecordHit(Relevances(judgments), picks, k, matched, grades, first, retrieved, pick.value);
        grades := grades + [judgments[pick.value].relevance];
        matched := matched + {pick.value};
        if first.None? {
          first := Some(i + 1);
        }
        if i + 1 <= k {
          retrieved := retrieved + 1;
        }
      }
      picks := picks + [pick];
      i := i + 1;
    }
    assert results[..|results|] == results;
  }

  lemma PickNext(judgments: seq<Judgment>, results: seq<Found>, i: nat, picks: seq<Option<nat>>, pick: Option<nat>)
    requires i < |results| && picks == Picks(judgments, results[..i])
    requires pick == Match(judgments, results[i], Chosen(picks), 0)
    ensures picks + [pick] == Picks(judgments, results[..i + 1]) && OncePerJudgment(picks + [pick], |judgments|)
  {
    PicksSnoc(judgments, results, i);
    PicksOnce(judgments, results[..i + 1]);
  }

  function ReciprocalRank(first: Option<nat>): real {
    match first
    case Some(rank) => if rank > 0 then 1.0 / rank as real else 0.0
    case None => 0.0
  }

  /** The inverse of the rank of the first hit, 0 without one. */
  ghost predicate InverseRank(picks: seq<Option<nat>>, x: real) {
    && ((forall i :: 0 <= i < |picks| ==> picks[i].None?) ==> x == 0.0)
    && (forall i :: IsFirst(picks, i) ==> Inverse(x, i + 1))
  }

  ghost predicate Inverse(x: real, rank: int) {
    x * rank as real == 1.0
  }

  ghost predicate IsFirst(picks: seq<Option<nat>>, i: int) {
    0 <= i < |picks| && picks[i].Some? && forall j :: 0 <= j < i ==> picks[j].None?
  }

  lemma ReciprocalExactly(picks: seq<Option<nat>>)
    ensures InverseRank(picks, ReciprocalRank(FirstHit(picks)))
  {
    var first := FirstHit(picks);
    forall i | IsFirst(picks, i)
      ensures Inverse(ReciprocalRank(first), i + 1)
    {
      FirstIs(picks, i);
      InverseTimes(i + 1);
    }
  }

  lemma FirstIs(picks: seq<Option<nat>>, i: nat)
    requires IsFirst(picks, i)
    ensures FirstHit(picks) == Some(i + 1)
  {
  }

  lemma InverseTimes(rank: nat)
    requires rank > 0
    ensures Inverse(ReciprocalRank(Some(rank)), rank)
  {
    QuotientTimes(1.0, rank as real);
  }

  lemma QuotientTimes(a: real, b: real)
    requires b != 0.0
    ensures Quotient(a, b) * b == a
  {
  }

  /** The places of the hits among the first k. */
  function PlacesWithin(picks: seq<Option<nat>>, k: nat): set<nat> {
    set i | 0 <= i < |picks| && i < k && picks[i].Some?
  }

  lemma RetrievedExactly(picks: seq<Option<nat>>, k: nat)
    ensures CountHits(TopPicks(picks, k)) == |PlacesWithin(picks, k)|
  {
    CountIsPlaces(TopPicks(picks, k));
    assert HitPlaces(TopPicks(picks, k)) == PlacesWithin(picks, k);
  }

  ghost predicate Share(x: real, part: int, whole: nat) {
    x * whole as real == part as real
  }

  lemma ShareTimes(part: int, whole: nat)
    requires whole == 0 ==> part == 0
    ensures Share(Quotient(part as real, whole as real), part, whole)
  {
    if whole > 0 {
      QuotientTimes(part as real, whole as real);
    }
  }

  /** Recall counts the hits among the first k, and the reciprocal rank inverts the rank of the first hit. */
  ghost predicate Measured(judgments: seq<Judgment>, picks: seq<Option<nat>>, k: nat, m: Metrics) {
    && m.total == |judgments|
    && m.retrieved == |set i | 0 <= i < |picks| && i < k && picks[i].Some?|
    && Share(m.recall, m.retrieved, |judgments|)
    && InverseRank(picks, m.reciprocalRank)
  }

  lemma MeasuredExactly(judgments: seq<Judgment>, picks: seq<Option<nat>>, k: nat, m: Metrics)
    requires judgments != [] && m.total == |judgments| && m.retrieved == CountHits(TopPicks(picks, k))
    requires m.recall == Quotient(m.retrieved as real, |judgments| as real) && m.reciprocalRank == ReciprocalRank(FirstHit(picks))
    ensures Measured(judgments, picks, k, m)
  {
    ShareTimes(m.retrieved, |judgments|);
    ReciprocalExactly(picks);
    RetrievedExactly(picks, k);
  }

  /** Evaluate one ranked response against its judgments: every metric is what it says, and lies between 0 and 1. */
  method EvaluateCase(judgments: seq<Judgment>, results: seq<Found>, k: nat, d: nat -> real) returns (r: Result<Metrics, string>)
    requires judgments != [] && Discount(d)
    requires forall j :: 0 <= j < |judgments| ==> judgments[j].relevance >= 1
    ensures r.Err? <==> k < 1
    ensures r.Ok? ==> Measured(judgments, Picks(judgments, results), k, r.value)
    ensures r.Ok? ==> r.value.ndcg == Ndcg(judgments, results, k, d)
    ensures r.Ok? ==> 0.0 <= r.value.recall <= 1.0
    ensures r.Ok? ==> 0.0 <= r.value.reciprocalRank <= 1.0
    ensures r.Ok? ==> 0.0 <= r.value.ndcg <= 1.0
  {
    if k < 1 {
      return Err("evaluation cutoff k must be positive");
    }
    var matched, grades, first, retrieved := JudgeResults(judgments, results, k);
    var ideal := DiscountedGain(Top(Ideal(judgments), k), d);
    var ndcg := if ideal != 0.0 then DiscountedGain(Top(grades, k), d) / ideal else 0.0;
    NdcgBounded(judgments, results, k, d);
    HitsWithin(judgments, results, k);
    QuotientBounded(retrieved as real, |judgments| as real);
    var reciprocal := if first.Some? then 1.0 / first.value as real else 0.0;
    if first.Some? {
      QuotientBounded(1.0, first.value as real);
    }
    r := Ok(Metrics(retrieved as real / |judgments| as real, reciprocal, ndcg, retrieved, |judgments|));
    MeasuredExactly(judgments, Picks(judgments, results), k, r.value);
  }

  function Ndcg(judgments: seq<Judgment>, results: seq<Found>, k: nat, d: nat -> real): real {
    Quotient(DiscountedGain(Top(Grades(judgments, results), k), d), DiscountedGain(Top(Ideal(judgments), k), d))
  }

  /** What is gained is this portion of what could be. */
  ghost predicate Portion(x: real, gained: real, possible: real) {
    x * possible == gained
  }

  /** The normalized gain is the portion of the best possible gain that was gained. */
  lemma NdcgExactly(judgments: seq<Judgment>, results: seq<Found>, k: nat, d: nat -> real, best: seq<nat>)
    requires Discount(d) && Descending(best) && multiset(best) == multiset(Relevances(judgments))
    ensures Portion(Ndcg(judgments, results, k, d),
                    DiscountedGain(Top(Grades(judgments, results), k), d), DiscountedGain(Top(best, k), d))
  {
    SortedIs(best, Relevances(judgments));
    NdcgRatio(judgments, results, k, d);
  }

  lemma SortedIs(best: seq<nat>, all: seq<nat>)
    requires Descending(best) && multiset(best) == multiset(all)
    ensures best == SortDescending(all)
  {
    SortSorts(all);
    DescendingIsUnique(best, SortDescending(all));
  }

  lemma NdcgRatio(judgments: seq<Judgment>, results: seq<Found>, k: nat, d: nat -> real)
    requires Discount(d)
    ensures Portion(Ndcg(judgments, results, k, d),
                    DiscountedGain(Top(Grades(judgments, results), k), d), DiscountedGain(Top(Ideal(judgments), k), d))
  {
    GainsCompare(judgments, results, k, d);
    GainRatio(DiscountedGain(Top(Grades(judgments, results), k), d), DiscountedGain(Top(Ideal(judgments), k), d));
  }

  /** For every judgment list, ranking and cutoff the normalized gain lies between 0 and 1. */
  lemma NdcgBounded(judgments: seq<Judgment>, results: seq<Found>, k: nat, d: nat -> real)
    requires Discount(d)
    ensures 0.0 <= Ndcg(judgments, results, k, d) <= 1.0
  {
    GainsCompare(judgments, results, k, d);
    QuotientBounded(DiscountedGain(Top(Grades(judgments, results), k), d), DiscountedGain(Top(Ideal(judgments), k), d));
  }

  /** The grade at a rank; past the end of a list there is none. */
  function GradeAt(grades: seq<nat>, i: nat): nat {
    if i < |grades| then grades[i] else 0
  }

  /** The lists agree at every rank, up to zeros at the end. */
  ghost predicate SameGrades(a: seq<nat>, b: seq<nat>) {
    forall i: nat :: GradeAt(a, i) == GradeAt(b, i)
  }

  lemma {:induction false} GainInjective(a: nat, b: nat)
    requires Gain(a) == Gain(b)
    ensures a == b
  {
    if a > 0 && b > 0 {
      GainInjective(a - 1, b - 1);
    } else {
      GainMonotone(0, a);
      GainMonotone(0, b);
    }
  }

  lemma StrictStep(dot: real, sum: real, x: real, last: real, next: real)
    requires dot >= last * sum && sum >= 0.0 && next < last && dot + x * next == next * (sum + x)
    ensures sum == 0.0 && dot == 0.0
  {
    assert dot == next * sum;
    assert (last - next) * sum <= 0.0;
  }

  /** Summation by parts is strict: the bound is met only when every earlier prefix sum is zero. */
  lemma {:induction false} StrictAbel(g: nat -> real, d: nat -> real, n: nat, m: nat)
    requires Discount(d) && m < n && forall i :: 0 <= i ==> Sum(g, i) >= 0.0
    requires Dot(g, d, n) == d(n) * Sum(g, n)
    ensures Sum(g, m) == 0.0
  {
    if m > 0 {
      Abel(g, d, n - 1);
      assert d(n) < d(n - 1);
      StrictStep(Dot(g, d, n - 1), Sum(g, n - 1), g(n - 1), d(n - 1), d(n));
      if m < n - 1 {
        StrictAbel(g, d, n - 1, m);
      }
    }
  }

  /** A list that gains no less than a list that dominates it is the same list. */
  lemma EqualGainsAgree(a: seq<nat>, b: seq<nat>, n: nat, d: nat -> real, i: nat)
    requires Discount(d) && Dominated(a, b) && i < n
    requires Discounted(a, n, d) == Discounted(b, n, d)
    ensures GradeAt(a, i) == GradeAt(b, i)
  {
    var g := Lead(a, b);
    forall m | 0 <= m
      ensures Sum(g, m) >= 0.0
    {
      LeadSums(a, b, m);
      assert Total(a, m) <= Total(b, m);
    }
    DotDifference(Gains(a), Gains(b), g, d, n);
    Abel(g, d, n);
    NoSumLeft(d(n), Sum(g, n));
    StrictAbel(g, d, n, i);
    if i + 1 < n {
      StrictAbel(g, d, n, i + 1);
    }
    assert Sum(g, i + 1) == Sum(g, i) + g(i);
    GainInjective(GradeAt(a, i), GradeAt(b, i));
  }

  lemma NoSumLeft(d: real, sum: real)
    requires d > 0.0 && sum >= 0.0 && 0.0 >= d * sum
    ensures sum == 0.0
  {
  }

  lemma {:induction false} SameGradesGainTheSame(a: seq<nat>, b: seq<nat>, n: nat, d: nat -> real)
    requires SameGrades(a, b)
    ensures Discounted(a, n, d) == Discounted(b, n, d)
  {
    if n > 0 {
      SameGradesGainTheSame(a, b, n - 1, d);
      assert GradeAt(a, n - 1) == GradeAt(b, n - 1);
    }
  }

  lemma ObservedDominated(judgments: seq<Judgment>, results: seq<Found>, k: nat)
    ensures Dominated(Top(Grades(judgments, results), k), Top(Ideal(judgments), k))
  {
    PicksOnce(judgments, results);
    SortSorts(Relevances(judgments));
    PicksWithin(Relevances(judgments), Picks(judgments, results));
    forall m | 0 <= m
      ensures Total(Top(Grades(judgments, results), k), m) <= Total(Top(Ideal(judgments), k), m)
    {
      TopDominated(Grades(judgments, results), Ideal(judgments), k, m);
    }
  }

  /** A response scores exactly 1 when, and only when, it grades every rank as the judged symbols from best to worst do. */
  lemma IdealScoresOne(judgments: seq<Judgment>, results: seq<Found>, k: nat, d: nat -> real)
    requires Discount(d) && judgments != [] && k >= 1
    requires forall j :: 0 <= j < |judgments| ==> judgments[j].relevance >= 1
    ensures Ndcg(judgments, results, k, d) == 1.0 <==> SameGrades(Top(Grades(judgments, results), k), Top(Ideal(judgments), k))
  {
    var a, b := Top(Grades(judgments, results), k), Top(Ideal(judgments), k);
    var n := |a| + |b|;
    IdealIsPositive(judgments, k, d);
    DiscountedFlat(a, n, d);
    DiscountedFlat(b, n, d);
    QuotientIsOne(DiscountedGain(a, d), DiscountedGain(b, d));
    if SameGrades(a, b) {
      SameGradesGainTheSame(a, b, n, d);
    }
    if Ndcg(judgments, results, k, d) == 1.0 {
      ObservedDominated(judgments, results, k);
      forall i: nat
        ensures GradeAt(a, i) == GradeAt(b, i)
      {
        if i < n {
          EqualGainsAgree(a, b, n, d, i);
        }
      }
    }
  }

  lemma QuotientIsOne(a: real, b: real)
    requires b > 0.0
    ensures Quotient(a, b) == 1.0 <==> a == b
  {
  }

  // ---------------------------------------------------------------- scoring identities

  /** Judged identities with their grades, as the entries of a mapping. */
  type Grading = seq<(string, nat)>

  ghost predicate IsGrading(grading: Grading) {
    && (forall i, j :: 0 <= i < j < |grading| ==> grading[i].0 != grading[j].0)
    && (forall i :: 0 <= i < |grading| ==> grading[i].1 >= 1)
  }

  /** First occurrences, in order. */
  function Unique(identities: seq<string>): seq<string> {
    if identities == [] then []
    else
      var before, last := Unique(identities[..|identities| - 1]), identities[|identities| - 1];
      if last in before then before else before + [last]
  }

  lemma {:induction false} UniqueIsUnique(identities: seq<string>)
    ensures forall i, j :: 0 <= i < j < |Unique(identities)| ==> Unique(identities)[i] != Unique(identities)[j]
    ensures forall x :: x in Unique(identities) <==> x in identities
  {
    if identities != [] {
      var n := |identities| - 1;
      UniqueIsUnique(identities[..n]);
      assert identities == identities[..n] + [identities[n]];
    }
  }

  function Lookup(grading: Grading, identity: string): (r: Option<nat>)
    ensures r.Some? ==> r.value < |grading| && grading[r.value].0 == identity
    ensures r.None? ==> forall i :: 0 <= i < |grading| ==> grading[i].0 != identity
  {
    if grading == [] then None
    else if grading[|grading| - 1].0 == identity then Some(|grading| - 1)
    else Lookup(grading[..|grading| - 1], identity)
  }

  function RankedAt(identities: seq<string>, k: nat): seq<string> {
    var ranked := Unique(identities);
    if k <= |ranked| then ranked[..k] else ranked
  }

  function Hits(grading: Grading, ranked: seq<string>): seq<Option<nat>> {
    seq(|ranked|, i requires 0 <= i < |ranked| => Lookup(grading, ranked[i]))
  }

  function GradeList(grading: Grading): seq<nat> {
    seq(|grading|, i requires 0 <= i < |grading| => grading[i].1)
  }

  datatype Scores = Scores(recall: real, reciprocalRank: real, ndcg: real, unsupported: real)

  function ScoreAtK(identities: seq<string>, grading: Grading, k: nat, d: nat -> real): Scores {
    ScoreHits(Hits(grading, RankedAt(identities, k)), grading, k, d)
  }

  function ScoreHits(hits: seq<Option<nat>>, grading: Grading, k: nat, d: nat -> real): Scores {
    Scores(
      Quotient(CountHits(hits) as real, |grading| as real),
      ReciprocalRank(FirstHit(hits)),
      Quotient(DiscountedGain(GradesOf(GradeList(grading), hits), d), DiscountedGain(Top(SortDescending(GradeList(grading)), k), d)),
      Quotient((|hits| - CountHits(hits)) as real, |hits| as real))
  }

  lemma HitsOnce(identities: seq<string>, grading: Grading, k: nat)
    ensures OncePerJudgment(Hits(grading, RankedAt(identities, k)), |grading|)
  {
    UniqueIsUnique(identities);
    var ranked := RankedAt(identities, k);
    var hits := Hits(grading, ranked);
    forall i, j | 0 <= i < j < |hits| && hits[i].Some?
      ensures hits[i] != hits[j]
    {
      assert ranked[i] != ranked[j];
    }
  }

  lemma {:induction false} HitsCount(picks: seq<Option<nat>>)
    ensures CountHits(picks) <= |picks|
  {
    if picks != [] {
      HitsCount(picks[..|picks| - 1]);
    }
  }

  predicate InUnit(x: real) {
    0.0 <= x <= 1.0
  }

  /** Repeated identities cannot push a score out of range: all four lie between 0 and 1. */
  lemma ScoresBounded(identities: seq<string>, grading: Grading, k: nat, d: nat -> real)
    requires Discount(d)
    ensures var scores := ScoreAtK(identities, grading, k, d);
      InUnit(scores.recall) && InUnit(scores.reciprocalRank) && InUnit(scores.ndcg) && InUnit(scores.unsupported)
  {
    HitsOnce(identities, grading, k);
    RatesBounded(Hits(grading, RankedAt(identities, k)), grading, k, d);
    GradedNeverBeatsIdeal(identities, grading, k, d);
  }

  lemma RatesBounded(hits: seq<Option<nat>>, grading: Grading, k: nat, d: nat -> real)
    requires OncePerJudgment(hits, |grading|)
    ensures var scores := ScoreHits(hits, grading, k, d);
      InUnit(scores.recall) && InUnit(scores.reciprocalRank) && InUnit(scores.unsupported)
  {
    HitsBounded(hits, Indexes(|grading|));
    QuotientBounded(CountHits(hits) as real, |grading| as real);
    HitsCount(hits);
    QuotientBounded((|hits| - CountHits(hits)) as real, |hits| as real);
    ReciprocalBounded(FirstHit(hits));
  }

  lemma ReciprocalBounded(first: Option<nat>)
    ensures InUnit(ReciprocalRank(first))
  {
  }

  lemma GradedNeverBeatsIdeal(identities: seq<string>, grading: Grading, k: nat, d: nat -> real)
    requires Discount(d)
    ensures InUnit(ScoreAtK(identities, grading, k, d).ndcg)
  {
    GradedGain(identities, grading, k, d);
    var grades := GradesOf(GradeList(grading), Hits(grading, RankedAt(identities, k)));
    QuotientBounded(DiscountedGain(grades, d), DiscountedGain(Top(SortDescending(GradeList(grading)), k), d));
  }

  /** A judgment is hit exactly when its identity is among the first k distinct ones. */
  lemma HitExactly(identities: seq<string>, grading: Grading, k: nat, i: nat)
    requires IsGrading(grading) && i < |grading|
    ensures Some(i) in Hits(grading, RankedAt(identities, k)) <==> grading[i].0 in RankedAt(identities, k)
  {
    var ranked := RankedAt(identities, k);
    var hits := Hits(grading, ranked);
    if grading[i].0 in ranked {
      var j :| 0 <= j < |ranked| && ranked[j] == grading[i].0;
      assert hits[j] == Lookup(grading, ranked[j]);
      assert hits[j].Some? && grading[hits[j].value].0 == grading[i].0;
      assert hits[j] == Some(i);
    }
    if Some(i) in hits {
      var j :| 0 <= j < |hits| && hits[j] == Some(i);
      assert ranked[j] == grading[i].0;
    }
  }

  /** Recall is 1 exactly when every judged identity is among the first k distinct ones. */
  lemma FullRecallExactly(identities: seq<string>, grading: Grading, k: nat, d: nat -> real)
    requires IsGrading(grading) && grading != []
    ensures ScoreAtK(identities, grading, k, d).recall == 1.0 <==>
            forall i :: 0 <= i < |grading| ==> grading[i].0 in RankedAt(identities, k)
  {
    var hits := Hits(grading, RankedAt(identities, k));
    HitsOnce(identities, grading, k);
    HitsBounded(hits, Indexes(|grading|));
    forall i | 0 <= i < |grading|
      ensures Some(i) in hits <==> grading[i].0 in RankedAt(identities, k)
    {
      HitExactly(identities, grading, k, i);
    }
    RecallWhole(CountHits(hits), |grading|);
    if CountHits(hits) == |grading| {
      AllHit(hits, Indexes(|grading|));
    }
    if forall i :: 0 <= i < |grading| ==> Some(i) in hits {
      EnoughHits(hits, Indexes(|grading|));
    }
  }

  lemma RecallWhole(hits: nat, total: nat)
    requires total > 0
    ensures Quotient(hits as real, total as real) == 1.0 <==> hits == total
  {
  }

  /** As many distinct hits as there are judgments leave none out. */
  lemma {:induction false} AllHit(picks: seq<Option<nat>>, free: set<nat>)
    requires forall i :: 0 <= i < |picks| && picks[i].Some? ==> picks[i].value in free
    requires forall i, j :: 0 <= i < j < |picks| && picks[i].Some? ==> picks[i] != picks[j]
    requires CountHits(picks) == |free|
    ensures forall x :: x in free ==> Some(x) in picks
    decreases |picks|
  {
    if picks == [] {
      assert free == {};
    } else {
      var n := |picks| - 1;
      var rest := if picks[n].Some? then free - {picks[n].value} else free;
      AllHit(picks[..n], rest);
      forall x | x in free
        ensures Some(x) in picks
      {
        assert x in rest ==> Some(x) in picks[..n];
        assert x !in rest ==> picks[n] == Some(x);
      }
    }
  }

  lemma {:induction false} EnoughHits(picks: seq<Option<nat>>, wanted: set<nat>)
    requires forall x :: x in wanted ==> Some(x) in picks
    ensures CountHits(picks) >= |wanted|
    decreases |picks|
  {
    if picks == [] {
      assert wanted == {};
    } else {
      var n := |picks| - 1;
      var rest := if picks[n].Some? then wanted - {picks[n].value} else wanted;
      forall x | x in rest
        ensures Some(x) in picks[..n]
      {
        assert Some(x) in picks && picks[n] != Some(x);
      }
      EnoughHits(picks[..n], rest);
    }
  }

  /** The ranked identities are the first k distinct ones, each where it first occurs. */
  lemma {:induction false} RankedExactly(identities: seq<string>, k: nat, m: nat)
    requires m <= |identities|
    ensures var all, ranked := Unique(identities), RankedAt(identities, k);
      && (forall i, j :: 0 <= i < j < |all| ==> all[i] != all[j])
      && (forall x :: x in all <==> x in identities)
      && Unique(identities[..m]) <= all
      && ranked <= all && |ranked| == if k <= |all| then k else |all|
    decreases |identities|
  {
    UniqueIsUnique(identities);
    if m < |identities| {
      var n := |identities| - 1;
      RankedExactly(identities[..n], k, m);
      assert identities[..n][..m] == identities[..m];
    } else {
      assert identities[..m] == identities;
    }
  }

  /** The grade of an identity, 0 when it is not judged. */
  ghost predicate GradedAs(grading: Grading, identity: string, grade: nat) {
    (identity, grade) in grading || (grade == 0 && forall i :: 0 <= i < |grading| ==> grading[i].0 != identity)
  }

  ghost predicate AllGraded(grading: Grading, ranked: seq<string>, grades: seq<nat>) {
    |grades| == |ranked| && forall r :: 0 <= r < |ranked| ==> GradedAs(grading, ranked[r], grades[r])
  }

  lemma HitGrade(grading: Grading, identity: string, grade: nat)
    requires IsGrading(grading) && GradedAs(grading, identity, grade)
    ensures GradeOf(GradeList(grading), Lookup(grading, identity)) == grade
    ensures Lookup(grading, identity).Some? <==> grade > 0
  {
    if (identity, grade) in grading {
      var i :| 0 <= i < |grading| && grading[i] == (identity, grade);
      assert Lookup(grading, identity) == Some(i);
    }
  }

  lemma HitGrades(grading: Grading, ranked: seq<string>, grades: seq<nat>)
    requires IsGrading(grading) && AllGraded(grading, ranked, grades)
    ensures GradesOf(GradeList(grading), Hits(grading, ranked)) == grades
    ensures forall r :: 0 <= r < |ranked| ==> (Hits(grading, ranked)[r].Some? <==> grades[r] > 0)
  {
    forall r | 0 <= r < |ranked|
      ensures GradeOf(GradeList(grading), Hits(grading, ranked)[r]) == grades[r]
      ensures Hits(grading, ranked)[r].Some? <==> grades[r] > 0
    {
      HitGrade(grading, ranked[r], grades[r]);
    }
  }

  /** Sorting leaves no choice. */
  lemma {:induction false} DescendingIsUnique(a: seq<nat>, b: seq<nat>)
    requires Descending(a) && Descending(b) && multiset(a) == multiset(b)
    ensures a == b
    decreases |a|
  {
    MultisetLength(a, b);
    MultisetLength(b, a);
    if a != [] {
      BestFirst(a, b);
      BestFirst(b, a);
      TailMultiset(a);
      TailMultiset(b);
      DescendingIsUnique(a[1..], b[1..]);
      assert a == [a[0]] + a[1..] && b == [b[0]] + b[1..];
    }
  }

  lemma BestFirst(a: seq<nat>, b: seq<nat>)
    requires a != [] && b != [] && Descending(b) && multiset(a) == multiset(b)
    ensures a[0] <= b[0]
  {
    assert a[0] in multiset(a);
    assert a[0] in multiset(b);
    assert a[0] in b;
  }

  lemma TailMultiset(s: seq<nat>)
    requires s != []
    ensures multiset(s[1..]) == multiset(s) - multiset{s[0]}
  {
    assert s == [s[0]] + s[1..];
  }

  /** The judged identities among the ranked ones, by their entries. */
  function JudgedIn(grading: Grading, ranked: seq<string>): set<nat> {
    set i | 0 <= i < |grading| && grading[i].0 in ranked
  }

  lemma ChosenExactly(picks: seq<Option<nat>>, i: nat)
    ensures i in Chosen(picks) <==> Some(i) in picks
  {
    if j :| 0 <= j < |picks| && picks[j] == Some(i) {
      assert picks[j].Some? && picks[j].value == i;
    }
  }

  lemma HitsAreJudged(identities: seq<string>, grading: Grading, k: nat)
    requires IsGrading(grading)
    ensures CountHits(Hits(grading, RankedAt(identities, k))) == |JudgedIn(grading, RankedAt(identities, k))|
  {
    var ranked := RankedAt(identities, k);
    var hits := Hits(grading, ranked);
    HitsOnce(identities, grading, k);
    CountIsChosen(hits);
    forall i: nat
      ensures i in Chosen(hits) <==> i in JudgedIn(grading, ranked)
    {
      ChosenExactly(hits, i);
      if i < |grading| {
        HitExactly(identities, grading, k, i);
      }
    }
    assert Chosen(hits) == JudgedIn(grading, ranked);
  }

  lemma {:induction false} MissesCount(picks: seq<Option<nat>>, grades: seq<nat>)
    requires |grades| == |picks| && forall r :: 0 <= r < |picks| ==> (picks[r].Some? <==> grades[r] > 0)
    ensures |picks| - CountHits(picks) == |ZeroPlaces(grades)|
    decreases |picks|
  {
    if picks != [] {
      var n := |picks| - 1;
      MissesCount(picks[..n], grades[..n]);
      assert ZeroPlaces(grades) == ZeroPlaces(grades[..n]) + if grades[n] == 0 then {n} else {};
    }
  }

  function ZeroPlaces(grades: seq<nat>): set<nat> {
    set r | 0 <= r < |grades| && grades[r] == 0
  }

  /** The share of judged identities that are ranked, and the share of ranked identities that are not judged. */
  ghost predicate Rated(grading: Grading, ranked: seq<string>, grades: seq<nat>, scores: Scores) {
    && Share(scores.recall, |set i | 0 <= i < |grading| && grading[i].0 in ranked|, |grading|)
    && Share(scores.unsupported, |set r | 0 <= r < |grades| && grades[r] == 0|, |ranked|)
  }

  lemma RatesExactly(identities: seq<string>, grading: Grading, k: nat, d: nat -> real, grades: seq<nat>)
    requires IsGrading(grading) && AllGraded(grading, RankedAt(identities, k), grades)
    ensures Rated(grading, RankedAt(identities, k), grades, ScoreAtK(identities, grading, k, d))
  {
    var hits := Hits(grading, RankedAt(identities, k));
    HitsAreJudged(identities, grading, k);
    HitGrades(grading, RankedAt(identities, k), grades);
    MissesCount(hits, grades);
    ShareTimes(CountHits(hits), |grading|);
    ShareTimes(|hits| - CountHits(hits), |hits|);
  }

  /** The inverse of the rank of the first graded identity, 0 without one. */
  ghost predicate FirstGraded(grades: seq<nat>, x: real) {
    && ((forall r :: 0 <= r < |grades| ==> grades[r] == 0) ==> x == 0.0)
    && (forall r :: 0 <= r < |grades| && grades[r] > 0 && (forall j :: 0 <= j < r ==> grades[j] == 0) ==> Inverse(x, r + 1))
  }

  lemma FirstGradedExactly(hits: seq<Option<nat>>, grades: seq<nat>)
    requires |hits| == |grades| && forall r :: 0 <= r < |hits| ==> (hits[r].Some? <==> grades[r] > 0)
    ensures FirstGraded(grades, ReciprocalRank(FirstHit(hits)))
  {
    ReciprocalExactly(hits);
    forall r | 0 <= r < |grades| && grades[r] > 0 && forall j :: 0 <= j < r ==> grades[j] == 0
      ensures Inverse(ReciprocalRank(FirstHit(hits)), r + 1)
    {
      assert IsFirst(hits, r);
    }
  }

  /** The reciprocal rank of the first judged identity, and the gain of the ranked grades against the best ones. */
  lemma RanksExactly(
    identities: seq<string>, grading: Grading, k: nat, d: nat -> real, grades: seq<nat>, all: seq<nat>, best: seq<nat>)
    requires Discount(d) && IsGrading(grading) && AllGraded(grading, RankedAt(identities, k), grades)
    requires |all| == |grading| && forall i :: 0 <= i < |all| ==> all[i] == grading[i].1
    requires Descending(best) && multiset(best) == multiset(all)
    ensures FirstGraded(grades, ScoreAtK(identities, grading, k, d).reciprocalRank)
    ensures Portion(ScoreAtK(identities, grading, k, d).ndcg, DiscountedGain(grades, d), DiscountedGain(Top(best, k), d))
  {
    HitGrades(grading, RankedAt(identities, k), grades);
    FirstGradedExactly(Hits(grading, RankedAt(identities, k)), grades);
    assert all == GradeList(grading);
    SortedIs(best, all);
    GradedRatio(identities, grading, k, d);
  }

  lemma GradedRatio(identities: seq<string>, grading: Grading, k: nat, d: nat -> real)
    requires Discount(d)
    ensures Portion(ScoreAtK(identities, grading, k, d).ndcg,
                    DiscountedGain(GradesOf(GradeList(grading), Hits(grading, RankedAt(identities, k))), d),
                    DiscountedGain(Top(SortDescending(GradeList(grading)), k), d))
  {
    GradedGain(identities, grading, k, d);
    GainRatio(DiscountedGain(GradesOf(GradeList(grading), Hits(grading, RankedAt(identities, k))), d),
              DiscountedGain(Top(SortDescending(GradeList(grading)), k), d));
  }

  lemma GradedGain(identities: seq<string>, grading: Grading, k: nat, d: nat -> real)
    requires Discount(d)
    ensures 0.0 <= DiscountedGain(GradesOf(GradeList(grading), Hits(grading, RankedAt(identities, k))), d)
                <= DiscountedGain(Top(SortDescending(GradeList(grading)), k), d)
  {
    var hits := Hits(grading, RankedAt(identities, k));
    HitsOnce(identities, grading, k);
    var grades, all := GradesOf(GradeList(grading), hits), GradeList(grading);
    SortSorts(all);
    PicksWithin(all, hits);
    ObservedNeverBeatsIdeal(grades, SortDescending(all), k, d);
    assert Top(grades, k) == grades;
  }

  lemma GainRatio(a: real, b: real)
    requires 0.0 <= a <= b
    ensures Portion(Quotient(a, b), a, b)
  {
    if b != 0.0 {
      QuotientTimes(a, b);
    }
  }
}
