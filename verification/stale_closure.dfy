/** The breadth-first searches that find what a change makes stale. */
module StaleClosure {
  import opened DependencyGraph
  import opened Reachability
  import opened Text

  function DeclaredKeys<K>(nodes: seq<Node<K>>): (keys: seq<K>)
    ensures |keys| == |nodes| && forall i :: 0 <= i < |nodes| ==> keys[i] == nodes[i].key
  {
    if nodes == [] then [] else DeclaredKeys(nodes[..|nodes| - 1]) + [nodes[|nodes| - 1].key]
  }

  /** The chosen keys, in the order in which they are listed. */
  function Select<K(==)>(keys: seq<K>, chosen: set<K>): seq<K> {
    if keys == [] then []
    else
      var last := keys[|keys| - 1];
      Select(keys[..|keys| - 1], chosen) + (if last in chosen then [last] else [])
  }

  lemma {:induction false} SelectHolds<K>(keys: seq<K>, chosen: set<K>)
    ensures forall k :: k in Select(keys, chosen) <==> k in keys && k in chosen
  {
    if keys != [] {
      SelectHolds(keys[..|keys| - 1], chosen);
      assert keys == keys[..|keys| - 1] + [keys[|keys| - 1]];
    }
  }

  lemma {:induction false} SelectDistinct<K>(keys: seq<K>, chosen: set<K>)
    requires Distinct(keys)
    ensures Distinct(Select(keys, chosen))
  {
    if keys != [] {
      var front, last := keys[..|keys| - 1], keys[|keys| - 1];
      assert keys == front + [last];
      DistinctAppend(front, last);
      SelectDistinct(front, chosen);
      SelectHolds(front, chosen);
      DistinctAppend(Select(front, chosen), last);
    }
  }

  method ListSelected<K(!new, ==)>(nodes: seq<Node<K>>, chosen: set<K>) returns (listed: seq<K>)
    ensures listed == Select(DeclaredKeys(nodes), chosen)
  {
    listed := [];
    var keys := DeclaredKeys(nodes);
    for i := 0 to |nodes|
      invariant listed == Select(keys[..i], chosen)
    {
      assert keys[..i + 1][..i] == keys[..i];
      if nodes[i].key in chosen {
        listed := listed + [nodes[i].key];
      }
    }
    assert keys[..|nodes|] == keys;
  }

  /** Everything that some root leads to, roots included. */
  ghost function Affected<K(!new)>(nodes: seq<Node<K>>, roots: set<K>): set<K> {
    roots + set e | e in Edges(nodes) && ReachedFrom(Edges(nodes), roots, e.1) :: e.1
  }

  ghost function StrictDependents<K(!new)>(nodes: seq<Node<K>>, key: K): set<K> {
    set e | e in Edges(nodes) && ReachesStrictly(Edges(nodes), key, e.1) :: e.1
  }

  lemma StrictOrSame<K(!new)>(edges: set<(K, K)>, a: K, b: K)
    ensures Reaches(edges, a, b) <==> a == b || ReachesStrictly(edges, a, b)
  {
    if Reaches(edges, a, b) {
      var p :| ChainFrom(edges, p, a, b);
      if |p| == 1 {
        assert a == b;
      }
    }
    SingleChain(edges, a);
    if ReachesStrictly(edges, a, b) {
      var p :| ChainFrom(edges, p, a, b) && |p| >= 2;
    }
  }

  lemma StrictDependentsAre<K(!new)>(nodes: seq<Node<K>>, key: K, x: K)
    ensures x in StrictDependents(nodes, key) <==> ReachesStrictly(Edges(nodes), key, x)
  {
    if ReachesStrictly(Edges(nodes), key, x) {
      var e := LastEdge(Edges(nodes), key, x);
    }
  }

  lemma AffectedAre<K(!new)>(nodes: seq<Node<K>>, roots: set<K>, x: K)
    ensures x in Affected(nodes, roots) <==> ReachedFrom(Edges(nodes), roots, x)
  {
    if r :| r in roots && Reaches(Edges(nodes), r, x) {
      StrictOrSame(Edges(nodes), r, x);
      if r != x {
        var e := LastEdge(Edges(nodes), r, x);
      }
    }
    if x in roots {
      SingleChain(Edges(nodes), x);
    }
  }

  // ------------------------------------------------- search that marks a key when it is taken

  ghost predicate Sound<K(!new)>(nodes: seq<Node<K>>, key: K, keys: set<K>) {
    forall x :: x in keys ==> ReachesStrictly(Edges(nodes), key, x)
  }

  /** What depends on a marked key, or on the changed one, is marked or waits. */
  ghost predicate Frontier<K(!new)>(nodes: seq<Node<K>>, key: K, marked: set<K>, queue: seq<K>) {
    forall e :: e in Edges(nodes) && (e.0 == key || e.0 in marked) ==> e.1 in marked || e.1 in queue
  }

  lemma StrictExtends<K(!new)>(nodes: seq<Node<K>>, key: K, x: K)
    requires ReachesStrictly(Edges(nodes), key, x)
    ensures forall y :: y in Dependents(nodes, x) ==> ReachesStrictly(Edges(nodes), key, y)
  {
    DependentsAreEdges(nodes, x);
    StrictOrSame(Edges(nodes), key, x);
    forall y | y in Dependents(nodes, x) ensures ReachesStrictly(Edges(nodes), key, y) {
      ExtendChain(Edges(nodes), key, x, y);
    }
  }

  lemma FrontierEmpty<K(!new)>(nodes: seq<Node<K>>, key: K, marked: set<K>)
    requires Sound(nodes, key, marked) && Frontier(nodes, key, marked, [])
    ensures marked == StrictDependents(nodes, key)
  {
    forall x ensures x in marked <==> x in StrictDependents(nodes, key) {
      StrictDependentsAre(nodes, key, x);
      if ReachesStrictly(Edges(nodes), key, x) {
        var y := StrictMeansStep(Edges(nodes), key, x);
        var q :| ChainFrom(Edges(nodes), q, y, x);
        assert Closed(Edges(nodes), marked);
        ClosedHoldsChain(Edges(nodes), marked, q, |q| - 1);
      }
    }
  }

  lemma TakeNext<K(!new)>(nodes: seq<Node<K>>, key: K, marked: set<K>, queue: seq<K>)
    requires queue != []
    requires Sound(nodes, key, marked) && Sound(nodes, key, Elements(queue)) && Frontier(nodes, key, marked, queue)
    ensures queue[0] in marked ==> Frontier(nodes, key, marked, queue[1..])
    ensures Sound(nodes, key, marked + {queue[0]})
    ensures Sound(nodes, key, Elements(queue[1..]))
    ensures Sound(nodes, key, Elements(queue[1..] + Dependents(nodes, queue[0])))
    ensures Frontier(nodes, key, marked + {queue[0]}, queue[1..] + Dependents(nodes, queue[0]))
  {
    var x := queue[0];
    assert x in Elements(queue);
    assert forall k :: k in queue <==> k == x || k in queue[1..];
    StrictExtends(nodes, key, x);
    DependentsAreEdges(nodes, x);
    forall e | e in Edges(nodes) && e.0 == x ensures e.1 in Dependents(nodes, x) {
      assert e == (x, e.1);
    }
  }

  lemma SoundWithin<K(!new)>(nodes: seq<Node<K>>, key: K, marked: set<K>)
    requires Sound(nodes, key, marked)
    ensures marked <= Keys(nodes)
  {
    forall x | x in marked ensures x in Keys(nodes) {
      var e := LastEdge(Edges(nodes), key, x);
    }
  }

  /** Everything that depends on the changed key by one or more edges, in declaration order. */
  method MarkWhenTaken<K(!new, ==)>(nodes: seq<Node<K>>, dependents: map<K, seq<K>>, changed: K) returns (stale: seq<K>)
    requires forall d :: Lookup(dependents, d) == Dependents(nodes, d)
    ensures stale == Select(DeclaredKeys(nodes), StrictDependents(nodes, changed))
  {
    var marked: set<K> := {};
    var queue := Lookup(dependents, changed);
    DependentsAreEdges(nodes, changed);
    forall y | y in queue ensures ReachesStrictly(Edges(nodes), changed, y) {
      SingleChain(Edges(nodes), changed);
      ExtendChain(Edges(nodes), changed, changed, y);
    }
    forall e | e in Edges(nodes) && e.0 == changed ensures e.1 in queue {
      assert e == (changed, e.1);
    }
    while |queue| > 0
      invariant Sound(nodes, changed, marked) && Sound(nodes, changed, Elements(queue))
      invariant Frontier(nodes, changed, marked, queue)
      decreases Keys(nodes) - marked, |queue|
    {
      var key := queue[0];
      TakeNext(nodes, changed, marked, queue);
      queue := queue[1..];
      if key in marked {
        continue;
      }
      SoundWithin(nodes, changed, marked + {key});
      marked := marked + {key};
      queue := queue + Lookup(dependents, key);
    }
    assert queue == [];
    FrontierEmpty(nodes, changed, marked);
    stale := ListSelected(nodes, marked);
  }

  // ------------------------------------------------- search that marks a key when it is pushed

  ghost predicate Seen<K(!new)>(nodes: seq<Node<K>>, roots: set<K>, seen: set<K>) {
    roots <= seen && forall x :: x in seen ==> ReachedFrom(Edges(nodes), roots, x)
  }

  /** What depends on a seen key that no longer waits is seen. */
  ghost predicate Explored<K(!new)>(nodes: seq<Node<K>>, seen: set<K>, queue: seq<K>) {
    forall e :: e in Edges(nodes) && e.0 in seen && e.0 !in queue ==> e.1 in seen
  }

  method PushNew<K(!new, ==)>(dependents: seq<K>, exempt: set<K>, before: set<K>, waiting: seq<K>)
    returns (marked: set<K>, queue: seq<K>)
    ensures marked == before + (Elements(dependents) - exempt)
    ensures forall k :: k in queue <==> k in waiting || k in marked - before
    ensures |queue| - |waiting| == |marked - before|
  {
    marked, queue := before, waiting;
    ghost var added: set<K> := {};
    for t := 0 to |dependents|
      invariant marked == before + added && before !! added
      invariant forall k :: k in added <==> k in dependents[..t] && k !in exempt && k !in before
      invariant forall k :: k in queue <==> k in waiting || k in added
      invariant |queue| - |waiting| == |added|
    {
      var dependent := dependents[t];
      assert forall k :: k in dependents[..t + 1] <==> k in dependents[..t] || k == dependent;
      if dependent !in exempt && dependent !in marked {
        added := added + {dependent};
        marked := marked + {dependent};
        queue := queue + [dependent];
      }
    }
    assert dependents[..|dependents|] == dependents;
    assert marked - before == added;
  }

  lemma SpreadKeepsSeen<K(!new)>(nodes: seq<Node<K>>, roots: set<K>, seen: set<K>, queue: seq<K>, more: seq<K>)
    requires queue != [] && Seen(nodes, roots, seen) && Explored(nodes, seen, queue) && queue[0] in seen
    requires forall k :: k in more <==> k in queue[1..] || (k in Dependents(nodes, queue[0]) && k !in seen)
    ensures Seen(nodes, roots, seen + Elements(Dependents(nodes, queue[0])))
    ensures Explored(nodes, seen + Elements(Dependents(nodes, queue[0])), more)
  {
    hide Reaches, ReachesStrictly, Edges, Dependents;
    var x := queue[0];
    DependentsAreEdges(nodes, x);
    assert ReachedFrom(Edges(nodes), roots, x);
    var r :| r in roots && Reaches(Edges(nodes), r, x);
    forall y | y in Dependents(nodes, x) ensures ReachedFrom(Edges(nodes), roots, y) {
      ExtendChain(Edges(nodes), r, x, y);
    }
    hide ReachedFrom;
    assert forall k :: k in queue <==> k == x || k in queue[1..];
    forall e | e in Edges(nodes) && e.0 in seen + Elements(Dependents(nodes, x)) && e.0 !in more
      ensures e.1 in seen + Elements(Dependents(nodes, x))
    {
      if e.0 == x {
        assert e == (x, e.1);
      }
    }
  }

  lemma ExploredIsAffected<K(!new)>(nodes: seq<Node<K>>, roots: set<K>, seen: set<K>)
    requires Seen(nodes, roots, seen) && Explored(nodes, seen, [])
    ensures seen == Affected(nodes, roots)
  {
    assert Closed(Edges(nodes), seen);
    hide Edges, ReachedFrom;
    ClosureIsReach(Edges(nodes), roots, seen);
    forall x ensures x in seen <==> x in Affected(nodes, roots) {
      AffectedAre(nodes, roots, x);
    }
  }

  lemma SeenWithin<K(!new)>(nodes: seq<Node<K>>, roots: set<K>, seen: set<K>)
    requires Seen(nodes, roots, seen)
    ensures seen <= roots + Keys(nodes)
  {
    hide Reaches, ReachesStrictly;
    forall x | x in seen ensures x in roots + Keys(nodes) {
      assert ReachedFrom(Edges(nodes), roots, x);
      var r :| r in roots && Reaches(Edges(nodes), r, x);
      StrictOrSame(Edges(nodes), r, x);
      if r != x {
        var e := LastEdge(Edges(nodes), r, x);
      }
    }
  }

  lemma SplitCount<K>(all: set<K>, a: set<K>, b: set<K>)
    requires a <= b <= all
    ensures |all - a| == |all - b| + |b - a|
  {
    assert all - a == (all - b) + (b - a);
  }

  ghost predicate Spreading<K(!new)>(nodes: seq<Node<K>>, roots: set<K>, exempt: set<K>, marked: set<K>, queue: seq<K>) {
    && marked !! exempt
    && Elements(queue) <= exempt + marked
    && Seen(nodes, roots, exempt + marked)
    && Explored(nodes, exempt + marked, queue)
  }

  /** What is unmarked or waits; every round takes one key out of it. */
  ghost function Work<K(!new)>(nodes: seq<Node<K>>, roots: set<K>, marked: set<K>, queue: seq<K>): nat {
    |roots + Keys(nodes) - marked| + |queue|
  }

  lemma SpreadStep<K(!new)>(nodes: seq<Node<K>>, roots: set<K>, exempt: set<K>, before: set<K>, waiting: seq<K>, marked: set<K>, queue: seq<K>)
    requires Spreading(nodes, roots, exempt, before, waiting) && waiting != []
    requires marked == before + (Elements(Dependents(nodes, waiting[0])) - exempt)
    requires forall k :: k in queue <==> k in waiting[1..] || k in marked - before
    requires |queue| - |waiting[1..]| == |marked - before|
    ensures Spreading(nodes, roots, exempt, marked, queue)
    ensures Work(nodes, roots, marked, queue) < Work(nodes, roots, before, waiting)
  {
    hide Reaches, Edges, Dependents, ReachedFrom;
    var key, seen := waiting[0], exempt + before;
    assert key in Elements(waiting);
    assert forall k :: k in waiting <==> k == key || k in waiting[1..];
    assert exempt + marked == seen + Elements(Dependents(nodes, key));
    SpreadKeepsSeen(nodes, roots, seen, waiting, queue);
    hide Seen, Explored;
    SeenWithin(nodes, roots, exempt + marked);
    SplitCount(roots + Keys(nodes), before, marked);
  }

  lemma SpreadStart<K(!new)>(nodes: seq<Node<K>>, roots: seq<K>, exempt: set<K>, before: set<K>)
    requires Elements(roots) == exempt + before && exempt !! before
    ensures Spreading(nodes, Elements(roots), exempt, before, roots)
  {
    forall x | x in roots ensures ReachedFrom(Edges(nodes), Elements(roots), x) {
      SingleChain(Edges(nodes), x);
      assert x in Elements(roots);
    }
  }

  lemma SpreadEnd<K(!new)>(nodes: seq<Node<K>>, roots: set<K>, exempt: set<K>, marked: set<K>)
    requires Spreading(nodes, roots, exempt, marked, [])
    ensures marked == Affected(nodes, roots) - exempt
  {
    ExploredIsAffected(nodes, roots, exempt + marked);
  }

  /** Marks everything the waiting roots lead to, except the exempt ones. Every root is exempt or
      marked beforehand. */
  method MarkWhenPushed<K(!new, ==)>(nodes: seq<Node<K>>, dependents: map<K, seq<K>>, exempt: set<K>, before: set<K>, roots: seq<K>)
    returns (marked: set<K>)
    requires forall d :: Lookup(dependents, d) == Dependents(nodes, d)
    requires Elements(roots) == exempt + before && exempt !! before
    ensures marked == Affected(nodes, Elements(roots)) - exempt
  {
    hide Dependents, Affected, Spreading, Work;
    marked := before;
    var queue := roots;
    SpreadStart(nodes, roots, exempt, before);
    while |queue| > 0
      invariant Spreading(nodes, Elements(roots), exempt, marked, queue)
      decreases Work(nodes, Elements(roots), marked, queue)
    {
      var key := queue[0];
      ghost var marks, waiting := marked, queue;
      queue := queue[1..];
      marked, queue := PushNew(Lookup(dependents, key), exempt, marked, queue);
      SpreadStep(nodes, Elements(roots), exempt, marks, waiting, marked, queue);
    }
    assert queue == [];
    SpreadEnd(nodes, Elements(roots), exempt, marked);
  }

  /** Several roots affect themselves and whatever depends on one of them. */
  lemma AffectedUnion<K(!new)>(nodes: seq<Node<K>>, roots: set<K>, x: K)
    ensures x in Affected(nodes, roots) <==> x in roots || exists r :: r in roots && x in StrictDependents(nodes, r)
  {
    AffectedAre(nodes, roots, x);
    if r :| r in roots && Reaches(Edges(nodes), r, x) {
      StrictOrSame(Edges(nodes), r, x);
      StrictDependentsAre(nodes, r, x);
    }
    if r :| r in roots && x in StrictDependents(nodes, r) {
      StrictOrSame(Edges(nodes), r, x);
      StrictDependentsAre(nodes, r, x);
    }
  }
}
