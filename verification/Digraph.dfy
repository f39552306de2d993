/** Finite dependency graphs: paths, reachability, cycles and dependency closure. */
module Digraph {

  /** The ids a node depends on, in declaration order. An id that is not a key is unknown. */
  type Edges = map<string, seq<string>>

  predicate Edge(g: Edges, a: string, b: string) {
    a in g && b in g[a]
  }

  ghost predicate IsPath(g: Edges, p: seq<string>) {
    |p| > 0 && forall i :: 0 <= i < |p| - 1 ==> Hop(g, p, i)
  }

  /** The step from position `i` of a path to the next. */
  ghost predicate Hop(g: Edges, p: seq<string>, i: nat)
    requires i + 1 < |p|
  {
    Edge(g, p[i], p[i + 1])
  }

  ghost predicate Joins(g: Edges, p: seq<string>, a: string, b: string) {
    IsPath(g, p) && p[0] == a && p[|p| - 1] == b
  }

  /** `a` is `b` or depends on it, directly or through others. */
  ghost predicate Reaches(g: Edges, a: string, b: string) {
    exists p :: Joins(g, p, a, b)
  }

  /** `a` depends on `b` through at least one edge. */
  ghost predicate DependsOn(g: Edges, a: string, b: string) {
    exists d :: Edge(g, a, d) && Reaches(g, d, b)
  }

  ghost predicate ReachedFrom(g: Edges, roots: set<string>, x: string) {
    exists r :: r in roots && Reaches(g, r, x)
  }

  /** Some cycle, self-loops included, runs inside `s`. */
  ghost predicate Cyclic(g: Edges, s: set<string>) {
    exists p :: IsCycle(g, s, p)
  }

  ghost predicate IsCycle(g: Edges, s: set<string>, p: seq<string>) {
    IsPath(g, p) && |p| >= 2 && p[0] == p[|p| - 1] && forall x :: x in p ==> x in s
  }

  ghost predicate Closed(g: Edges, s: set<string>) {
    forall a, b :: a in s && Edge(g, a, b) ==> b in s
  }

  ghost predicate NoDuplicates(s: seq<string>) {
    forall i, j :: 0 <= i < j < |s| ==> s[i] != s[j]
  }

  /** Every dependency that occurs in `order` at all occurs before its dependants. */
  ghost predicate Topological(g: Edges, order: seq<string>) {
    forall i, j :: 0 <= i < |order| && 0 <= j < |order| && Edge(g, order[i], order[j]) ==> j < i
  }

  function Elements(s: seq<string>): set<string> {
    set x | x in s
  }

  lemma ReachesItself(g: Edges, a: string)
    ensures Reaches(g, a, a)
  {
    assert Joins(g, [a], a, a);
  }

  lemma EdgeReaches(g: Edges, a: string, b: string)
    requires Edge(g, a, b)
    ensures Reaches(g, a, b)
  {
    assert Hop(g, [a, b], 0);
    assert Joins(g, [a, b], a, b);
  }

  lemma ReachesIsTransitive(g: Edges, a: string, b: string, c: string)
    requires Reaches(g, a, b) && Reaches(g, b, c)
    ensures Reaches(g, a, c)
  {
    var p :| Joins(g, p, a, b);
    var q :| Joins(g, q, b, c);
    var r := p + q[1..];
    forall i | 0 <= i < |r| - 1 ensures Hop(g, r, i) {
      if i < |p| - 1 {
        assert Hop(g, p, i);
      } else {
        assert Hop(g, q, i - |p| + 1);
      }
    }
    assert Joins(g, r, a, c);
  }

  /** A path is trivial or starts with an edge. */
  lemma ReachesFirstStep(g: Edges, a: string, b: string)
    requires Reaches(g, a, b)
    ensures a == b || DependsOn(g, a, b)
  {
    var p :| Joins(g, p, a, b);
    if |p| > 1 {
      assert Hop(g, p, 0);
      PathSuffix(g, p, 1);
      assert Joins(g, p[1..], p[1], b);
    }
  }

  /** A set closed under dependencies holds everything its members reach. */
  lemma {:induction false} ClosedHoldsPath(g: Edges, s: set<string>, p: seq<string>, n: nat)
    requires Closed(g, s) && IsPath(g, p) && p[0] in s && n < |p|
    ensures p[n] in s
  {
    if n > 0 {
      ClosedHoldsPath(g, s, p, n - 1);
      assert Hop(g, p, n - 1);
    }
  }

  lemma ClosedHoldsReached(g: Edges, s: set<string>, a: string, b: string)
    requires Closed(g, s) && a in s && Reaches(g, a, b)
    ensures b in s
  {
    var p :| Joins(g, p, a, b);
    ClosedHoldsPath(g, s, p, |p| - 1);
  }

  /** Positions strictly fall along a path of a topological order. */
  lemma {:induction false} TopologicalPathFalls(
      g: Edges, order: seq<string>, p: seq<string>, n: nat, at: nat)
      returns (end: nat)
    requires Topological(g, order) && IsPath(g, p) && n < |p|
    requires forall x :: x in p ==> x in order
    requires at < |order| && order[at] == p[0]
    ensures end < |order| && order[end] == p[n] && end + n <= at
  {
    if n == 0 {
      end := at;
    } else {
      var before := TopologicalPathFalls(g, order, p, n - 1, at);
      assert p[n] in order;
      end :| 0 <= end < |order| && order[end] == p[n];
      assert Hop(g, p, n - 1);
    }
  }

  /** A topological order of a set rules out cycles in it. */
  lemma TopologicalIsAcyclic(g: Edges, s: set<string>, order: seq<string>)
    requires Topological(g, order) && NoDuplicates(order) && Elements(order) == s
    ensures !Cyclic(g, s)
  {
    if Cyclic(g, s) {
      var p :| IsCycle(g, s, p);
      forall x | x in p ensures x in order {
        assert x in Elements(order);
      }
      assert p[0] in p;
      var at :| 0 <= at < |order| && order[at] == p[0];
      var end := TopologicalPathFalls(g, order, p, |p| - 1, at);
      assert false;
    }
  }

  lemma CycleDependsOnItself(g: Edges, s: set<string>, p: seq<string>)
    requires IsCycle(g, s, p)
    ensures DependsOn(g, p[0], p[0])
  {
    assert Hop(g, p, 0);
    PathSuffix(g, p, 1);
    assert Joins(g, p[1..], p[1], p[0]);
  }

  lemma PathSuffix(g: Edges, p: seq<string>, n: nat)
    requires IsPath(g, p) && n < |p|
    ensures IsPath(g, p[n..])
  {
    forall i | 0 <= i < |p[n..]| - 1 ensures Hop(g, p[n..], i) {
      assert Hop(g, p, n + i);
    }
  }
}
