/** Paths in a finite directed graph given as a set of edges. In a dependency graph an edge
    leads from a dependency to the node that depends on it. */
module Reachability {

  /** A path: consecutive nodes are joined by edges. */
  ghost predicate Chain<K(!new)>(edges: set<(K, K)>, p: seq<K>) {
    p != [] && forall i :: 0 <= i < |p| - 1 ==> (p[i], p[i + 1]) in edges
  }

  ghost predicate ChainFrom<K(!new)>(edges: set<(K, K)>, p: seq<K>, a: K, b: K) {
    Chain(edges, p) && p[0] == a && p[|p| - 1] == b
  }

  /** b is a or follows from a by edges. */
  ghost predicate Reaches<K(!new)>(edges: set<(K, K)>, a: K, b: K) {
    exists p :: ChainFrom(edges, p, a, b)
  }

  /** Some root leads to x. */
  ghost predicate ReachedFrom<K(!new)>(edges: set<(K, K)>, roots: set<K>, x: K) {
    exists r :: r in roots && Reaches(edges, r, x)
  }

  /** b follows from a by at least one edge. */
  ghost predicate ReachesStrictly<K(!new)>(edges: set<(K, K)>, a: K, b: K) {
    exists p :: ChainFrom(edges, p, a, b) && |p| >= 2
  }

  ghost predicate Acyclic<K(!new)>(edges: set<(K, K)>) {
    forall x :: !ReachesStrictly(edges, x, x)
  }

  ghost predicate Closed<K(!new)>(edges: set<(K, K)>, s: set<K>) {
    forall e :: e in edges && e.0 in s ==> e.1 in s
  }

  lemma {:induction false} ClosedHoldsChain<K(!new)>(edges: set<(K, K)>, s: set<K>, p: seq<K>, k: nat)
    requires Closed(edges, s) && Chain(edges, p) && p[0] in s && k < |p|
    ensures p[k] in s
  {
    if k > 0 {
      ClosedHoldsChain(edges, s, p, k - 1);
      assert (p[k - 1], p[k]) in edges;
    }
  }

  lemma ExtendChain<K(!new)>(edges: set<(K, K)>, a: K, b: K, c: K)
    requires Reaches(edges, a, b) && (b, c) in edges
    ensures Reaches(edges, a, c) && ReachesStrictly(edges, a, c)
  {
    var p :| ChainFrom(edges, p, a, b);
    assert ChainFrom(edges, p + [c], a, c);
  }

  lemma SingleChain<K(!new)>(edges: set<(K, K)>, a: K)
    ensures Reaches(edges, a, a)
  {
    assert ChainFrom(edges, [a], a, a);
  }

  lemma StrictMeansStep<K(!new)>(edges: set<(K, K)>, a: K, c: K) returns (b: K)
    requires ReachesStrictly(edges, a, c)
    ensures (a, b) in edges && Reaches(edges, b, c)
  {
    var p :| ChainFrom(edges, p, a, c) && |p| >= 2;
    b := p[1];
    assert (p[0], p[1]) in edges;
    var q := p[1..];
    forall i | 0 <= i < |q| - 1 ensures (q[i], q[i + 1]) in edges {
      assert q[i] == p[i + 1] && q[i + 1] == p[i + 1 + 1];
    }
    assert ChainFrom(edges, q, b, c);
  }

  lemma LastEdge<K(!new)>(edges: set<(K, K)>, a: K, b: K) returns (e: (K, K))
    requires ReachesStrictly(edges, a, b)
    ensures e in edges && e.1 == b
  {
    var p :| ChainFrom(edges, p, a, b) && |p| >= 2;
    e := (p[|p| - 2], p[|p| - 2 + 1]);
  }

  /** A set that holds the roots, is closed, and holds only what the roots reach is their closure. */
  lemma ClosureIsReach<K(!new)>(edges: set<(K, K)>, roots: set<K>, s: set<K>)
    requires roots <= s && Closed(edges, s)
    requires forall x :: x in s ==> ReachedFrom(edges, roots, x)
    ensures forall x :: x in s <==> ReachedFrom(edges, roots, x)
  {
    forall x | ReachedFrom(edges, roots, x) ensures x in s {
      var r :| r in roots && Reaches(edges, r, x);
      var p :| ChainFrom(edges, p, r, x);
      ClosedHoldsChain(edges, s, p, |p| - 1);
    }
  }

  // ---------------------------------------------------------------- orders and cycles

  /** Whatever a listed node depends on is listed earlier. */
  ghost predicate Topological<K(!new)>(edges: set<(K, K)>, order: seq<K>) {
    forall i, e :: 0 <= i < |order| && e in edges && e.1 == order[i] ==> e.0 in order[..i]
  }

  ghost function FirstIndex<K>(order: seq<K>, x: K): (i: nat)
    requires x in order
    ensures i < |order| && order[i] == x && forall k :: 0 <= k < i ==> order[k] != x
  {
    if order[0] == x then 0 else 1 + FirstIndex(order[1..], x)
  }

  /** Walking back along a path, positions in the order fall with every edge. */
  lemma {:induction false} RankFalls<K(!new)>(edges: set<(K, K)>, order: seq<K>, p: seq<K>, back: nat)
    requires Topological(edges, order) && Chain(edges, p) && p[|p| - 1] in order && back < |p|
    ensures p[|p| - 1 - back] in order && FirstIndex(order, p[|p| - 1 - back]) + back <= FirstIndex(order, p[|p| - 1])
  {
    if back > 0 {
      RankFalls(edges, order, p, back - 1);
      var k := |p| - 1 - back;
      var i := FirstIndex(order, p[k + 1]);
      assert (p[k], p[k + 1]) in edges;
      assert p[k] in order[..i];
      var j :| 0 <= j < i && order[..i][j] == p[k];
      assert order[j] == p[k];
    }
  }

  /** An order that lists every dependent node, dependencies first, leaves no cycle. */
  lemma TopologicalIsAcyclic<K(!new)>(edges: set<(K, K)>, order: seq<K>)
    requires Topological(edges, order)
    requires forall e :: e in edges ==> e.1 in order
    ensures Acyclic(edges)
  {
    forall x ensures !ReachesStrictly(edges, x, x) {
      if ReachesStrictly(edges, x, x) {
        var p :| ChainFrom(edges, p, x, x) && |p| >= 2;
        assert (p[|p| - 2], p[|p| - 2 + 1]) in edges;
        RankFalls(edges, order, p, |p| - 1);
      }
    }
  }

  lemma {:induction false} Pigeonhole<K(!new)>(p: seq<K>, s: set<K>) returns (i: nat, j: nat)
    requires forall k :: 0 <= k < |p| ==> p[k] in s
    requires |p| > |s|
    ensures i < j < |p| && p[i] == p[j]
  {
    var last := p[|p| - 1];
    if k :| 0 <= k < |p| - 1 && p[k] == last {
      i, j := k, |p| - 1;
    } else {
      i, j := Pigeonhole(p[..|p| - 1], s - {last});
    }
  }

  ghost predicate HasDependency<K(!new)>(edges: set<(K, K)>, s: set<K>, x: K) {
    exists y :: y in s && (y, x) in edges
  }

  lemma {:induction false} WalkBack<K(!new)>(edges: set<(K, K)>, s: set<K>, end: K, length: nat) returns (p: seq<K>)
    requires end in s && forall x :: x in s ==> HasDependency(edges, s, x)
    ensures |p| == length + 1 && Chain(edges, p) && forall k :: 0 <= k < |p| ==> p[k] in s
  {
    if length == 0 {
      p := [end];
    } else {
      var q := WalkBack(edges, s, end, length - 1);
      assert HasDependency(edges, s, q[0]);
      var y :| y in s && (y, q[0]) in edges;
      p := [y] + q;
    }
  }

  /** Nodes that all depend on some of themselves lie on a cycle somewhere. */
  lemma EndlessSetHasCycle<K(!new)>(edges: set<(K, K)>, s: set<K>)
    requires s != {} && forall x :: x in s ==> HasDependency(edges, s, x)
    ensures exists x :: x in s && ReachesStrictly(edges, x, x)
    ensures !Acyclic(edges)
  {
    var end :| end in s;
    var p := WalkBack(edges, s, end, |s|);
    var i, j := Pigeonhole(p, s);
    CycleInChain(edges, p, i, j);
    assert p[i] in s;
  }

  lemma CycleInChain<K(!new)>(edges: set<(K, K)>, p: seq<K>, i: nat, j: nat)
    requires Chain(edges, p) && i < j < |p| && p[i] == p[j]
    ensures ReachesStrictly(edges, p[i], p[i])
  {
    var q := p[i..j + 1];
    forall k | 0 <= k < |q| - 1 ensures (q[k], q[k + 1]) in edges {
      assert q[k] == p[i + k] && q[k + 1] == p[i + k + 1];
    }
    assert ChainFrom(edges, q, p[i], p[i]);
  }
}
