/**
The text a node id is hashed from (src/scs/indexing/pipeline.py:156-169).

The rest of the model names a node by its path, kind, qualified name and ordinal.  The program names it by
one string, so the two agree exactly when that string can be taken apart again.  Hashing is not part of
this module.
*/
module Identity {
  import opened Pipeline

  function Digit(d: nat): char
    requires d < 10
  {
    '0' + d as char
  }

  function Decimal(n: nat): string {
    (if n < 10 then [] else Decimal(n / 10)) + [Digit(n % 10)]
  }

  function Base(repo: string, id: NodeId): string {
    repo + ":" + (id.path + ":" + (id.kind + ":" + id.name))
  }

  function IdentityText(repo: string, id: NodeId): string {
    if id.occurrence == 0 then Base(repo, id)
    else "occurrence:" + (Decimal(id.occurrence) + ":" + Base(repo, id))
  }

  predicate NoColon(s: string) {
    ':' !in s
  }

  // ---------------------------------------------------------------- taking texts apart

  /** The first colon decides where the head of a text ends. */
  lemma SplitAtColon(a: string, x: string, b: string, y: string)
    requires NoColon(a) && NoColon(b) && a + ":" + x == b + ":" + y
    ensures a == b && x == y
  {
    var t := a + ":" + x;
    assert t == b + ":" + y;
    assert t[|a|] == ':' && t[|b|] == ':';
    if |a| < |b| {
      assert false;
    } else if |b| < |a| {
      assert false;
    } else {
      assert a == t[..|a|] && b == t[..|b|];
      assert x == t[|a| + 1..] && y == t[|b| + 1..];
    }
  }

  lemma SameRest(a: string, x: string, y: string)
    requires a + x == a + y
    ensures x == y
  {
    assert x == (a + x)[|a|..] && y == (a + y)[|a|..];
  }

  lemma {:induction false} DecimalHasNoColon(n: nat)
    ensures NoColon(Decimal(n))
  {
    if n >= 10 {
      DecimalHasNoColon(n / 10);
    }
  }

  lemma {:induction false} DecimalInjective(m: nat, n: nat)
    requires Decimal(m) == Decimal(n)
    ensures m == n
  {
    var dm, dn := Decimal(m), Decimal(n);
    assert dm[|dm| - 1] == Digit(m % 10) && dn[|dn| - 1] == Digit(n % 10);
    assert dm[..|dm| - 1] == (if m < 10 then [] else Decimal(m / 10));
    assert dn[..|dn| - 1] == (if n < 10 then [] else Decimal(n / 10));
    if m >= 10 && n >= 10 {
      DecimalInjective(m / 10, n / 10);
    }
  }

  lemma BaseInjective(repo: string, a: NodeId, b: NodeId)
    requires NoColon(a.path) && NoColon(b.path) && NoColon(a.kind) && NoColon(b.kind)
    requires Base(repo, a) == Base(repo, b)
    ensures a.path == b.path && a.kind == b.kind && a.name == b.name
  {
    SameRest(repo + ":", a.path + ":" + (a.kind + ":" + a.name), b.path + ":" + (b.kind + ":" + b.name));
    SplitAtColon(a.path, a.kind + ":" + a.name, b.path, b.kind + ":" + b.name);
    SplitAtColon(a.kind, a.name, b.kind, b.name);
  }

  /** In one absolute repository, colon-free paths and kinds make the text as good as the id. */
  lemma IdentityTextInjective(repo: string, a: NodeId, b: NodeId)
    requires repo != "" && repo[0] == '/'
    requires NoColon(a.path) && NoColon(b.path) && NoColon(a.kind) && NoColon(b.kind)
    ensures IdentityText(repo, a) == IdentityText(repo, b) <==> a == b
  {
    if IdentityText(repo, a) == IdentityText(repo, b) {
      assert Base(repo, a)[0] == '/' && Base(repo, b)[0] == '/';
      if a.occurrence == 0 || b.occurrence == 0 {
        assert IdentityText(repo, a)[0] == IdentityText(repo, b)[0];
        assert a.occurrence == b.occurrence;
      } else {
        SameRest("occurrence:", Decimal(a.occurrence) + ":" + Base(repo, a), Decimal(b.occurrence) + ":" + Base(repo, b));
        DecimalHasNoColon(a.occurrence);
        DecimalHasNoColon(b.occurrence);
        SplitAtColon(Decimal(a.occurrence), Base(repo, a), Decimal(b.occurrence), Base(repo, b));
        DecimalInjective(a.occurrence, b.occurrence);
      }
      BaseInjective(repo, a, b);
    }
  }

  // ---------------------------------------------------------------- paths with a colon

  predicate StartsWith(s: string, prefix: string) {
    |prefix| <= |s| && s[..|prefix|] == prefix
  }

  /** One path, continued by a node kind, runs into the other. */
  predicate RunsInto(kinds: set<string>, p: string, q: string) {
    exists k :: k in kinds && StartsWith(q + ":", p + ":" + k + ":")
  }

  /** Some symbols of the two files have the same text. */
  ghost predicate CanCollide(kinds: set<string>, repo: string, p: string, q: string) {
    exists k1, n1, k2, n2 ::
      k1 in kinds && k2 in kinds && Base(repo, NodeId(p, k1, n1, 0)) == Base(repo, NodeId(q, k2, n2, 0))
  }

  lemma ShorterRunsInto(kinds: set<string>, p: string, k1: string, n1: string, q: string, k2: string, n2: string)
    requires k1 in kinds && NoColon(k1) && p != q && |p| <= |q|
    requires p + ":" + (k1 + ":" + n1) == q + ":" + (k2 + ":" + n2)
    ensures RunsInto(kinds, p, q)
  {
    var t := p + ":" + (k1 + ":" + n1);
    assert t[..|p|] == p && t[..|q|] == q;
    assert |p| < |q|;
    var head := p + ":" + k1 + ":";
    assert t[..|head|] == head;
    assert t[..|q| + 1] == q + ":";
    assert t[|q|] == ':';
    assert forall i :: 0 <= i < |k1| ==> t[|p| + 1 + i] == k1[i];
    if |q| + 1 < |head| {
      assert false;
    } else {
      assert (q + ":")[..|head|] == t[..|q| + 1][..|head|] == t[..|head|];
    }
  }

  lemma RunningIntoCollides(kinds: set<string>, repo: string, p: string, q: string)
    requires RunsInto(kinds, p, q)
    ensures exists n1, n2, k :: k in kinds && Base(repo, NodeId(p, k, n1, 0)) == Base(repo, NodeId(q, k, n2, 0))
  {
    var k :| k in kinds && StartsWith(q + ":", p + ":" + k + ":");
    var head := p + ":" + k + ":";
    var rest := (q + ":")[|head|..];
    assert q + ":" == head + rest;
    var n1 := rest + (k + ":");
    assert q + ":" + (k + ":" + "") == head + rest + (k + ":") == p + ":" + (k + ":" + n1);
    assert Base(repo, NodeId(p, k, n1, 0)) == Base(repo, NodeId(q, k, "", 0));
  }

  /** Two files share a symbol text for some names exactly when one path, followed by a kind, runs into the other. */
  lemma PathsCollideExactly(kinds: set<string>, repo: string, p: string, q: string)
    requires p != q && forall k :: k in kinds ==> NoColon(k)
    ensures CanCollide(kinds, repo, p, q) <==> RunsInto(kinds, p, q) || RunsInto(kinds, q, p)
  {
    if CanCollide(kinds, repo, p, q) {
      var k1, n1, k2, n2 :|
        k1 in kinds && k2 in kinds && Base(repo, NodeId(p, k1, n1, 0)) == Base(repo, NodeId(q, k2, n2, 0));
      SameRest(repo + ":", p + ":" + (k1 + ":" + n1), q + ":" + (k2 + ":" + n2));
      if |p| <= |q| {
        ShorterRunsInto(kinds, p, k1, n1, q, k2, n2);
      } else {
        ShorterRunsInto(kinds, q, k2, n2, p, k1, n1);
      }
    }
    if RunsInto(kinds, p, q) {
      RunningIntoCollides(kinds, repo, p, q);
    }
    if RunsInto(kinds, q, p) {
      RunningIntoCollides(kinds, repo, q, p);
    }
  }

  /** A colon in a path lets a symbol of one file overwrite a symbol of another. */
  lemma ColonPathsCollide(repo: string)
    ensures IdentityText(repo, NodeId("a", "function", "function:f", 0)) == IdentityText(repo, NodeId("a:function", "function", "f", 0))
  {
  }
}
