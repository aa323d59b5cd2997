/** The graph algorithms over nodes that list their dependencies by key. */
module DependencyGraph {
  import opened Reachability
  import opened Text

  datatype Node<K> = Node(key: K, dependsOn: seq<K>)

  ghost function Edges<K(!new)>(nodes: seq<Node<K>>): set<(K, K)> {
    set n, d | n in nodes && d in n.dependsOn :: (d, n.key)
  }

  function Keys<K>(nodes: seq<Node<K>>): set<K> {
    set n | n in nodes :: n.key
  }

  predicate UniqueKeys<K(==)>(nodes: seq<Node<K>>) {
    forall i, j :: 0 <= i < j < |nodes| ==> nodes[i].key != nodes[j].key
  }

  /** Keys are unique and every dependency is a node, listed once. */
  predicate WellFormed<K(==)>(nodes: seq<Node<K>>) {
    && UniqueKeys(nodes)
    && forall n :: n in nodes ==> Distinct(n.dependsOn) && forall d :: d in n.dependsOn ==> d in Keys(nodes)
  }

  lemma EdgeOf<K(!new)>(nodes: seq<Node<K>>, i: nat, d: K)
    requires UniqueKeys(nodes) && i < |nodes|
    ensures (d, nodes[i].key) in Edges(nodes) <==> d in nodes[i].dependsOn
  {
    if (d, nodes[i].key) in Edges(nodes) {
      var n :| n in nodes && d in n.dependsOn && n.key == nodes[i].key;
      var j :| 0 <= j < |nodes| && nodes[j] == n;
      assert j == i;
    } else {
      assert nodes[i] in nodes;
    }
  }

  /** The keys of the nodes that depend on d, in declaration order. */
  function Dependents<K(==)>(nodes: seq<Node<K>>, d: K): seq<K> {
    if nodes == [] then []
    else
      var last := nodes[|nodes| - 1];
      Dependents(nodes[..|nodes| - 1], d) + (if d in last.dependsOn then [last.key] else [])
  }

  lemma {:induction false} DependentsAreEdges<K(!new)>(nodes: seq<Node<K>>, d: K)
    ensures forall k :: k in Dependents(nodes, d) <==> (d, k) in Edges(nodes)
  {
    if nodes != [] {
      var front, last := nodes[..|nodes| - 1], nodes[|nodes| - 1];
      DependentsAreEdges(front, d);
      assert nodes == front + [last];
      assert forall n :: n in nodes <==> n in front || n == last;
      forall k ensures (d, k) in Edges(nodes) <==> (d, k) in Edges(front) || (d in last.dependsOn && k == last.key) {
        if (d, k) in Edges(nodes) {
          var n :| n in nodes && d in n.dependsOn && n.key == k;
        }
      }
    }
  }

  lemma {:induction false} DependentsDistinct<K(!new)>(nodes: seq<Node<K>>, d: K)
    requires UniqueKeys(nodes)
    ensures Distinct(Dependents(nodes, d))
  {
    if nodes != [] {
      var front, last := nodes[..|nodes| - 1], nodes[|nodes| - 1];
      assert forall i :: 0 <= i < |front| ==> front[i] == nodes[i];
      DependentsDistinct(front, d);
      DependentsAreEdges(front, d);
      forall k | k in Dependents(front, d) ensures k != last.key {
        assert (d, k) in Edges(front);
        var n :| n in front && d in n.dependsOn && n.key == k;
        var i :| 0 <= i < |front| && front[i] == n;
        assert nodes[i].key != nodes[|nodes| - 1].key;
      }
      DistinctAppend(Dependents(front, d), last.key);
    }
  }

  function Lookup<K(==), V>(m: map<K, seq<V>>, k: K): seq<V> {
    if k in m then m[k] else []
  }

  method RegisterDependent<K(!new, ==)>(before: map<K, seq<K>>, node: Node<K>) returns (after: map<K, seq<K>>)
    requires Distinct(node.dependsOn)
    ensures forall d :: Lookup(after, d) == Lookup(before, d) + (if d in node.dependsOn then [node.key] else [])
  {
    after := before;
    for j := 0 to |node.dependsOn|
      invariant forall d :: Lookup(after, d) == Lookup(before, d) + (if d in node.dependsOn[..j] then [node.key] else [])
    {
      var d := node.dependsOn[j];
      assert d !in node.dependsOn[..j];
      assert node.dependsOn[..j + 1] == node.dependsOn[..j] + [d];
      after := after[d := Lookup(after, d) + [node.key]];
    }
    assert node.dependsOn[..|node.dependsOn|] == node.dependsOn;
  }

  method BuildDependents<K(!new, ==)>(nodes: seq<Node<K>>) returns (dependents: map<K, seq<K>>)
    requires forall n :: n in nodes ==> Distinct(n.dependsOn)
    ensures forall d :: Lookup(dependents, d) == Dependents(nodes, d)
  {
    dependents := map[];
    for i := 0 to |nodes|
      invariant forall d :: Lookup(dependents, d) == Dependents(nodes[..i], d)
    {
      assert nodes[i] in nodes;
      assert nodes[..i + 1][..i] == nodes[..i];
      dependents := RegisterDependent(dependents, nodes[i]);
      forall d ensures Lookup(dependents, d) == Dependents(nodes[..i + 1], d) {
        assert nodes[..i + 1][|nodes[..i + 1]| - 1] == nodes[i];
      }
    }
    assert nodes[..|nodes|] == nodes;
  }

  // ---------------------------------------------------------------- Kahn's algorithm

  function Remaining<K(==)>(deps: seq<K>, done: set<K>): set<K> {
    set d | d in deps && d !in done
  }

  lemma {:induction false} DistinctCount<K>(s: seq<K>)
    requires Distinct(s)
    ensures |set x | x in s| == |s|
  {
    if s != [] {
      var front, last := s[..|s| - 1], s[|s| - 1];
      DistinctCount(front);
      assert s == front + [last];
      assert (set x | x in s) == (set x | x in front) + {last};
      assert last !in front;
    }
  }

  function Degree<K(==)>(indegree: map<K, int>, k: K): int {
    if k in indegree then indegree[k] else 0
  }

  method CountDependencies<K(!new, ==)>(nodes: seq<Node<K>>) returns (indegree: map<K, int>)
    requires WellFormed(nodes)
    ensures forall i :: 0 <= i < |nodes| ==> Degree(indegree, nodes[i].key) == |Remaining(nodes[i].dependsOn, {})|
  {
    indegree := map[];
    for i := 0 to |nodes|
      invariant forall k :: 0 <= k < i ==> Degree(indegree, nodes[k].key) == |nodes[k].dependsOn|
      invariant forall k :: i <= k < |nodes| ==> nodes[k].key !in indegree
    {
      var node := nodes[i];
      ghost var before := indegree;
      for j := 0 to |node.dependsOn|
        invariant Degree(indegree, node.key) == j
        invariant forall k :: k != node.key ==> (k in indegree <==> k in before) && Degree(indegree, k) == Degree(before, k)
      {
        indegree := indegree[node.key := Degree(indegree, node.key) + 1];
      }
    }
    forall i | 0 <= i < |nodes| ensures |nodes[i].dependsOn| == |Remaining(nodes[i].dependsOn, {})| {
      assert nodes[i] in nodes;
      DistinctCount(nodes[i].dependsOn);
      assert Remaining(nodes[i].dependsOn, {}) == set d | d in nodes[i].dependsOn;
    }
  }

  ghost function Elements<K>(s: seq<K>): set<K> {
    set k | k in s
  }

  /** For every node the count of its missing dependencies; the ones that miss none are exactly
      the processed and the queued. */
  ghost predicate Counts<K(!new)>(nodes: seq<Node<K>>, indegree: map<K, int>, order: seq<K>, queue: seq<K>) {
    forall i :: 0 <= i < |nodes| ==>
      && Degree(indegree, nodes[i].key) == |Remaining(nodes[i].dependsOn, Elements(order))|
      && (nodes[i].key in order || nodes[i].key in queue <==> Degree(indegree, nodes[i].key) == 0)
  }

  /** How far Kahn's algorithm has come: the processed keys in order and those waiting. */
  ghost predicate Progress<K(!new)>(nodes: seq<Node<K>>, indegree: map<K, int>, order: seq<K>, queue: seq<K>) {
    && Distinct(order + queue)
    && (forall k :: k in order || k in queue ==> k in Keys(nodes))
    && Counts(nodes, indegree, order, queue)
    && Topological(Edges(nodes), order)
  }

  /** The counts while the dependents before position t have been told that `key` is processed. */
  ghost predicate Releasing<K(!new)>(nodes: seq<Node<K>>, indegree: map<K, int>, order: seq<K>, key: K, queue: seq<K>, told: seq<K>) {
    forall i :: 0 <= i < |nodes| ==>
      && Degree(indegree, nodes[i].key) ==
         |Remaining(nodes[i].dependsOn, if nodes[i].key in told then Elements(order + [key]) else Elements(order))|
      && (nodes[i].key in order + [key] || nodes[i].key in queue <==> Degree(indegree, nodes[i].key) == 0)
  }

  lemma RemainingShrinks<K>(deps: seq<K>, order: seq<K>, key: K)
    requires key !in order
    ensures key in deps ==> |Remaining(deps, Elements(order + [key]))| == |Remaining(deps, Elements(order))| - 1
    ensures key !in deps ==> Remaining(deps, Elements(order + [key])) == Remaining(deps, Elements(order))
  {
    var before, after := Remaining(deps, Elements(order)), Remaining(deps, Elements(order + [key]));
    assert forall k :: k in order + [key] <==> k in order || k == key;
    if key in deps {
      assert before == after + {key};
      assert key !in after;
    } else {
      assert before == after;
    }
  }

  method Release<K(!new, ==)>(ghost nodes: seq<Node<K>>, ghost order: seq<K>, key: K, dependents: seq<K>, start: map<K, int>, waiting: seq<K>)
    returns (indegree: map<K, int>, queue: seq<K>)
    requires UniqueKeys(nodes) && dependents == Dependents(nodes, key)
    requires key !in order && Distinct(order + [key] + waiting)
    requires forall k :: k in order + [key] + waiting ==> k in Keys(nodes)
    requires Releasing(nodes, start, order, key, waiting, [])
    ensures Distinct(order + [key] + queue)
    ensures forall k :: k in order + [key] + queue ==> k in Keys(nodes)
    ensures Releasing(nodes, indegree, order, key, queue, dependents)
  {
    indegree, queue := start, waiting;
    DependentsAreEdges(nodes, key);
    DependentsDistinct(nodes, key);
    for t := 0 to |dependents|
      invariant Distinct(order + [key] + queue)
      invariant forall k :: k in order + [key] + queue ==> k in Keys(nodes)
      invariant Releasing(nodes, indegree, order, key, queue, dependents[..t])
    {
      var dependent := dependents[t];
      assert (key, dependent) in Edges(nodes);
      ghost var n :| n in nodes && key in n.dependsOn && n.key == dependent;
      ghost var i :| 0 <= i < |nodes| && nodes[i] == n;
      assert dependent !in dependents[..t];
      RemainingShrinks(n.dependsOn, order, key);
      assert key in Remaining(n.dependsOn, Elements(order));
      assert Degree(indegree, dependent) == |Remaining(n.dependsOn, Elements(order))| > 0;
      ghost var told := dependents[..t + 1];
      assert told == dependents[..t] + [dependent];
      indegree := indegree[dependent := Degree(indegree, dependent) - 1];
      if Degree(indegree, dependent) == 0 {
        assert dependent !in order + [key] + queue;
        DistinctAppend(order + [key] + queue, dependent);
        assert order + [key] + (queue + [dependent]) == order + [key] + queue + [dependent];
        queue := queue + [dependent];
      }
    }
    assert dependents[..|dependents|] == dependents;
  }

  /** The next key of the queue has no dependency left, so it may follow the processed ones. */
  lemma NextIsReady<K(!new)>(nodes: seq<Node<K>>, indegree: map<K, int>, order: seq<K>, queue: seq<K>)
    requires UniqueKeys(nodes) && Progress(nodes, indegree, order, queue) && queue != []
    ensures Topological(Edges(nodes), order + [queue[0]])
    ensures queue[0] !in order && Distinct(order + [queue[0]] + queue[1..])
    ensures forall k :: k in order + [queue[0]] + queue[1..] ==> k in Keys(nodes)
    ensures Releasing(nodes, indegree, order, queue[0], queue[1..], [])
  {
    var key, longer := queue[0], order + [queue[0]];
    assert order + queue == longer + queue[1..];
    var all := order + queue;
    assert forall i :: 0 <= i < |order| ==> all[i] == order[i];
    assert all[|order|] == key;
    assert forall k :: k in queue <==> k == key || k in queue[1..];
    forall i, e | 0 <= i < |longer| && e in Edges(nodes) && e.1 == longer[i] ensures e.0 in longer[..i] {
      if i < |order| {
        assert longer[..i] == order[..i];
      } else {
        assert longer[..i] == order;
        var n :| n in nodes && e.0 in n.dependsOn && n.key == key;
        var j :| 0 <= j < |nodes| && nodes[j] == n;
        assert e.0 !in Remaining(n.dependsOn, Elements(order));
      }
    }
  }

  lemma ReleasedIsProgress<K(!new)>(nodes: seq<Node<K>>, indegree: map<K, int>, order: seq<K>, key: K, queue: seq<K>)
    requires UniqueKeys(nodes) && key !in order
    requires Distinct(order + [key] + queue) && (forall k :: k in order + [key] + queue ==> k in Keys(nodes))
    requires Topological(Edges(nodes), order + [key])
    requires Releasing(nodes, indegree, order, key, queue, Dependents(nodes, key))
    ensures Progress(nodes, indegree, order + [key], queue)
  {
    DependentsAreEdges(nodes, key);
    forall i | 0 <= i < |nodes|
      ensures Degree(indegree, nodes[i].key) == |Remaining(nodes[i].dependsOn, Elements(order + [key]))|
    {
      EdgeOf(nodes, i, key);
      RemainingShrinks(nodes[i].dependsOn, order, key);
    }
    forall k | k in order + [key] || k in queue ensures k in Keys(nodes) {
      assert k in order + [key] + queue;
    }
  }

  lemma DistinctWithin<K>(s: seq<K>, keys: set<K>)
    requires Distinct(s) && forall k :: k in s ==> k in keys
    ensures |s| <= |keys|
    ensures |s| == |keys| ==> forall k :: k in keys ==> k in s
  {
    DistinctCount(s);
    var elements := set x | x in s;
    assert elements <= keys;
    SubsetCount(elements, keys);
  }

  lemma SubsetCount<K>(a: set<K>, b: set<K>)
    requires a <= b
    ensures |a| <= |b| && (|a| == |b| ==> a == b)
  {
    assert b == a + (b - a);
  }

  lemma {:induction false} KeysCount<K(!new)>(nodes: seq<Node<K>>)
    requires UniqueKeys(nodes)
    ensures |Keys(nodes)| == |nodes|
  {
    if nodes != [] {
      var front, last := nodes[..|nodes| - 1], nodes[|nodes| - 1];
      KeysCount(front);
      assert nodes == front + [last];
      assert Keys(nodes) == Keys(front) + {last.key};
      assert last.key !in Keys(front);
    }
  }

  lemma LeftOverIsCyclic<K(!new)>(nodes: seq<Node<K>>, indegree: map<K, int>, order: seq<K>)
    requires UniqueKeys(nodes) && (forall n :: n in nodes ==> forall d :: d in n.dependsOn ==> d in Keys(nodes))
    requires Counts(nodes, indegree, order, [])
    requires Keys(nodes) - Elements(order) != {}
    ensures !Acyclic(Edges(nodes))
  {
    var left := Keys(nodes) - Elements(order);
    forall x | x in left ensures HasDependency(Edges(nodes), left, x) {
      var n :| n in nodes && n.key == x;
      var i :| 0 <= i < |nodes| && nodes[i] == n;
      assert Remaining(n.dependsOn, Elements(order)) != {};
      var d :| d in Remaining(n.dependsOn, Elements(order));
      assert (d, x) in Edges(nodes) && d in left;
    }
    hide Counts, Edges;
    EndlessSetHasCycle(Edges(nodes), left);
  }

  /** When the queue is empty, either every node is processed and the order is topological, or each
      node left over depends on another one left over. */
  lemma EmptyQueueDecides<K(!new)>(nodes: seq<Node<K>>, indegree: map<K, int>, order: seq<K>)
    requires WellFormed(nodes) && Progress(nodes, indegree, order, [])
    ensures |order| == |nodes| <==> Acyclic(Edges(nodes))
  {
    assert order + [] == order;
    KeysCount(nodes);
    DistinctWithin(order, Keys(nodes));
    if |order| == |nodes| {
      assert forall e :: e in Edges(nodes) ==> e.1 in Keys(nodes);
      TopologicalIsAcyclic(Edges(nodes), order);
    } else {
      DistinctCount(order);
      assert Elements(order) == set x | x in order;
      assert Keys(nodes) - Elements(order) != {} by {
        SubsetCount(Elements(order), Keys(nodes));
      }
      LeftOverIsCyclic(nodes, indegree, order);
    }
  }

  /** Kahn's algorithm processes all nodes exactly when no node depends on itself in the end. */
  method ProcessesAll<K(!new, ==)>(nodes: seq<Node<K>>) returns (all: bool)
    requires WellFormed(nodes)
    ensures all <==> Acyclic(Edges(nodes))
  {
    var indegree := CountDependencies(nodes);
    var dependents := BuildDependents(nodes);
    var queue: seq<K> := InitialQueue(nodes, indegree);
    ghost var order: seq<K> := [];
    var visited := 0;
    assert order + queue == queue;
    while |queue| > 0
      invariant Progress(nodes, indegree, order, queue)
      invariant visited == |order|
      decreases |Keys(nodes)| - |order|
    {
      var key := queue[0];
      NextIsReady(nodes, indegree, order, queue);
      queue := queue[1..];
      visited := visited + 1;
      indegree, queue := Release(nodes, order, key, Lookup(dependents, key), indegree, queue);
      ReleasedIsProgress(nodes, indegree, order, key, queue);
      order := order + [key];
      OrderFits(nodes, indegree, order, queue);
    }
    EmptyQueueDecides(nodes, indegree, order);
    return visited == |nodes|;
  }

  lemma OrderFits<K(!new)>(nodes: seq<Node<K>>, indegree: map<K, int>, order: seq<K>, queue: seq<K>)
    requires Progress(nodes, indegree, order, queue)
    ensures |order| <= |Keys(nodes)|
  {
    assert forall i :: 0 <= i < |order| ==> (order + queue)[i] == order[i];
    DistinctWithin(order, Keys(nodes));
  }

  method InitialQueue<K(!new, ==)>(nodes: seq<Node<K>>, indegree: map<K, int>) returns (queue: seq<K>)
    requires WellFormed(nodes)
    requires forall i :: 0 <= i < |nodes| ==> Degree(indegree, nodes[i].key) == |Remaining(nodes[i].dependsOn, {})|
    ensures Progress(nodes, indegree, [], queue)
  {
    queue := [];
    for i := 0 to |nodes|
      invariant Distinct(queue)
      invariant forall k :: k in queue <==> exists j :: 0 <= j < i && nodes[j].key == k && Degree(indegree, nodes[j].key) == 0
    {
      if Degree(indegree, nodes[i].key) == 0 {
        DistinctAppend(queue, nodes[i].key);
        queue := queue + [nodes[i].key];
      }
    }
    var none: seq<K> := [];
    assert none + queue == queue;
    assert Elements(none) == {};
  }
}
