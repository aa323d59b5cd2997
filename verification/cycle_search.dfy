/** The three-colour depth-first search for cycles. */
module CycleSearch {
  import opened DependencyGraph
  import opened Reachability
  import opened Text

  datatype Colour = Visiting | Visited

  /** What is known of a search without a cycle so far. The keys being visited form a path, newest
      first; the visited ones are listed with their dependencies first. */
  ghost predicate Consistent<K(!new)>(edges: set<(K, K)>, keys: set<K>, states: map<K, Colour>, path: seq<K>, finished: seq<K>) {
    && states.Keys <= keys
    && (forall k :: k in path <==> k in states && states[k] == Visiting)
    && (forall k :: k in finished <==> k in states && states[k] == Visited)
    && Topological(edges, finished)
    && (path == [] || Chain(edges, path))
  }

  lemma CloseCycle<K(!new)>(edges: set<(K, K)>, path: seq<K>, key: K)
    requires Chain(edges, path) && (key, path[0]) in edges && key in path
    ensures !Acyclic(edges)
  {
    var p := [key] + path;
    forall i | 0 <= i < |p| - 1 ensures (p[i], p[i + 1]) in edges {
      if i > 0 {
        assert p[i] == path[i - 1] && p[i + 1] == path[i - 1 + 1];
      }
    }
    var j :| 0 <= j < |path| && path[j] == key;
    CycleInChain(edges, p, 0, j + 1);
  }

  lemma Enter<K(!new)>(edges: set<(K, K)>, keys: set<K>, states: map<K, Colour>, path: seq<K>, finished: seq<K>, key: K)
    requires Consistent(edges, keys, states, path, finished)
    requires key in keys && key !in states && (path == [] || (key, path[0]) in edges)
    ensures Consistent(edges, keys, states[key := Visiting], [key] + path, finished)
  {
    var p := [key] + path;
    forall i | 0 <= i < |p| - 1 ensures (p[i], p[i + 1]) in edges {
      if i > 0 {
        assert p[i] == path[i - 1] && p[i + 1] == path[i - 1 + 1];
      }
    }
  }

  lemma Leave<K(!new)>(edges: set<(K, K)>, keys: set<K>, states: map<K, Colour>, path: seq<K>, finished: seq<K>, key: K)
    requires Consistent(edges, keys, states, [key] + path, finished)
    requires key !in path && (path == [] || Chain(edges, path))
    requires forall e :: e in edges && e.1 == key ==> e.0 in finished
    ensures Consistent(edges, keys, states[key := Visited], path, finished + [key])
  {
    assert forall k :: k in [key] + path <==> k == key || k in path;
    var longer := finished + [key];
    forall i, e | 0 <= i < |longer| && e in edges && e.1 == longer[i] ensures e.0 in longer[..i] {
      if i < |finished| {
        assert longer[..i] == finished[..i];
      } else {
        assert longer[..i] == finished;
      }
    }
  }

  /** The table of the dependencies by key holds exactly the nodes. */
  ghost predicate Tabulates<K(!new)>(table: map<K, seq<K>>, nodes: seq<Node<K>>) {
    table.Keys == Keys(nodes) && forall i :: 0 <= i < |nodes| ==> nodes[i].key in table && table[nodes[i].key] == nodes[i].dependsOn
  }

  lemma TableFits<K(!new)>(table: map<K, seq<K>>, nodes: seq<Node<K>>)
    requires Tabulates(table, nodes)
    ensures forall n :: n in nodes ==> n.key in table && table[n.key] == n.dependsOn
  {
    forall n | n in nodes ensures n.key in table && table[n.key] == n.dependsOn {
      var i :| 0 <= i < |nodes| && nodes[i] == n;
    }
  }

  lemma TableKeys<K(!new)>(table: map<K, seq<K>>, nodes: seq<Node<K>>)
    requires Tabulates(table, nodes)
    ensures table.Keys == Keys(nodes)
  {
  }

  ghost predicate Extends<K>(before: seq<K>, after: seq<K>) {
    before <= after
  }

  lemma ExtendsMore<K>(before: seq<K>, between: seq<K>, after: seq<K>)
    ensures Extends(before, before) && Extends(before, before + after)
    ensures Extends(before, between) && Extends(between, after) ==> Extends(before, after)
  {
  }

  lemma NothingIn<K>(deps: seq<K>, finished: seq<K>)
    ensures AllIn(deps, 0, finished)
  {
  }

  ghost predicate AllIn<K>(deps: seq<K>, n: nat, finished: seq<K>)
    requires n <= |deps|
  {
    forall k :: 0 <= k < n ==> deps[k] in finished
  }

  lemma StillIn<K>(deps: seq<K>, n: nat, before: seq<K>, after: seq<K>)
    requires n < |deps| && AllIn(deps, n, before) && Extends(before, after) && deps[n] in after
    ensures AllIn(deps, n + 1, after)
  {
    forall k | 0 <= k < n ensures deps[k] in after {
      var i :| 0 <= i < |before| && before[i] == deps[k];
      assert after[i] == deps[k];
    }
  }

  lemma DependenciesIn<K(!new)>(nodes: seq<Node<K>>, n: Node<K>, finished: seq<K>)
    requires UniqueKeys(nodes) && n in nodes && AllIn(n.dependsOn, |n.dependsOn|, finished)
    ensures forall e :: e in Edges(nodes) && e.1 == n.key ==> e.0 in finished
  {
    var i :| 0 <= i < |nodes| && nodes[i] == n;
    forall e | e in Edges(nodes) && e.1 == n.key ensures e.0 in finished {
      EdgeOf(nodes, i, e.0);
    }
  }

  /** One search over a graph; `dependsOn` is the table of the nodes by key. */
  class Search<K(!new, ==)> {
    ghost const nodes: seq<Node<K>>
    const dependsOn: map<K, seq<K>>
    var states: map<K, Colour>
    ghost var path: seq<K>
    ghost var finished: seq<K>

    ghost predicate Tabulated() {
      && UniqueKeys(nodes)
      && dependsOn.Keys == Keys(nodes)
      && (forall n :: n in nodes ==> dependsOn[n.key] == n.dependsOn)
      && forall n :: n in nodes ==> forall d :: d in n.dependsOn ==> d in Keys(nodes)
    }

    ghost predicate Valid()
      reads this
    {
      Tabulated() && Consistent(Edges(nodes), Keys(nodes), states, path, finished)
    }

    constructor (ghost nodes: seq<Node<K>>, dependsOn: map<K, seq<K>>)
      requires UniqueKeys(nodes) && dependsOn.Keys == Keys(nodes)
      requires forall n :: n in nodes ==> dependsOn[n.key] == n.dependsOn
      requires forall n :: n in nodes ==> forall d :: d in n.dependsOn ==> d in Keys(nodes)
      ensures Valid() && path == [] && states == map[]
      ensures this.nodes == nodes && this.dependsOn == dependsOn
    {
      this.nodes, this.dependsOn := nodes, dependsOn;
      states, path, finished := map[], [], [];
    }

    /** Visits a key and what it depends on; each key enters the table of states once. */
    method Visit(key: K) returns (cyclic: bool)
      requires Valid() && key in Keys(nodes)
      requires path == [] || (key, path[0]) in Edges(nodes)
      modifies this
      ensures cyclic ==> !Acyclic(Edges(nodes))
      ensures !cyclic ==> Valid() && path == old(path) && key in finished
      ensures Extends(old(finished), finished) && old(states.Keys) <= states.Keys
      decreases Keys(nodes) - states.Keys
    {
      hide Topological, Chain, Acyclic, Tabulates, AllIn, Extends;
      ExtendsMore(finished, finished, finished);
      if key in states {
        if states[key] == Visiting {
          CloseCycle(Edges(nodes), path, key);
          return true;
        }
        return false;
      }
      Enter(Edges(nodes), Keys(nodes), states, path, finished, key);
      states := states[key := Visiting];
      path := [key] + path;
      ghost var n :| n in nodes && n.key == key;
      var deps := dependsOn[key];
      NothingIn(deps, finished);
      for i := 0 to |deps|
        invariant Valid() && path == [key] + old(path)
        invariant Extends(old(finished), finished) && old(states.Keys) + {key} <= states.Keys
        invariant AllIn(deps, i, finished)
      {
        assert deps[i] in n.dependsOn;
        assert (deps[i], key) in Edges(nodes);
        ghost var before := finished;
        cyclic := Visit(deps[i]);
        ExtendsMore(old(finished), before, finished);
        if cyclic {
          return true;
        }
        StillIn(deps, i, before, finished);
      }
      DependenciesIn(nodes, n, finished);
      assert key !in old(path);
      Leave(Edges(nodes), Keys(nodes), states, old(path), finished, key);
      states := states[key := Visited];
      path := old(path);
      ExtendsMore(finished, finished, [key]);
      ExtendsMore(old(finished), finished, finished + [key]);
      finished := finished + [key];
      return false;
    }
  }

  lemma AllFinishedIsAcyclic<K(!new)>(nodes: seq<Node<K>>, states: map<K, Colour>, finished: seq<K>)
    requires Consistent(Edges(nodes), Keys(nodes), states, [], finished)
    requires forall k :: k in Keys(nodes) ==> k in finished
    ensures Acyclic(Edges(nodes))
  {
    assert forall e :: e in Edges(nodes) ==> e.1 in Keys(nodes);
    TopologicalIsAcyclic(Edges(nodes), finished);
  }

  /** Visits the nodes in declaration order. */
  method ContainsCycle<K(!new, ==)>(nodes: seq<Node<K>>, dependsOn: map<K, seq<K>>) returns (cyclic: bool)
    requires UniqueKeys(nodes) && dependsOn.Keys == Keys(nodes)
    requires forall n :: n in nodes ==> dependsOn[n.key] == n.dependsOn
    requires forall n :: n in nodes ==> forall d :: d in n.dependsOn ==> d in Keys(nodes)
    ensures cyclic <==> !Acyclic(Edges(nodes))
  {
    var search := new Search(nodes, dependsOn);
    for i := 0 to |nodes|
      invariant search.Valid() && search.path == [] && search.nodes == nodes
      invariant forall k :: 0 <= k < i ==> nodes[k].key in search.finished
    {
      assert nodes[i] in nodes;
      cyclic := search.Visit(nodes[i].key);
      if cyclic {
        return true;
      }
    }
    AllFinishedIsAcyclic(nodes, search.states, search.finished);
    return false;
  }

  /** Visits the keys of the table in whatever order they come. */
  method ContainsCycleAnyOrder<K(!new, ==)>(ghost nodes: seq<Node<K>>, dependsOn: map<K, seq<K>>) returns (cyclic: bool)
    requires UniqueKeys(nodes) && dependsOn.Keys == Keys(nodes)
    requires forall n :: n in nodes ==> dependsOn[n.key] == n.dependsOn
    requires forall n :: n in nodes ==> forall d :: d in n.dependsOn ==> d in Keys(nodes)
    ensures cyclic <==> !Acyclic(Edges(nodes))
  {
    var search := new Search(nodes, dependsOn);
    var left := dependsOn.Keys;
    while left != {}
      invariant search.Valid() && search.path == [] && search.nodes == nodes
      invariant left <= Keys(nodes)
      invariant forall k :: k in Keys(nodes) - left ==> k in search.finished
      decreases left
    {
      var key :| key in left;
      left := left - {key};
      cyclic := search.Visit(key);
      if cyclic {
        return true;
      }
    }
    AllFinishedIsAcyclic(nodes, search.states, search.finished);
    return false;
  }

  /** The answer does not depend on the order in which the nodes are listed. */
  lemma EdgesIgnoreOrder<K(!new)>(a: seq<Node<K>>, b: seq<Node<K>>)
    requires multiset(a) == multiset(b)
    ensures Edges(a) == Edges(b) && Keys(a) == Keys(b)
  {
    forall n ensures n in a <==> n in b {
      assert n in a <==> n in multiset(a);
      assert n in b <==> n in multiset(b);
    }
  }

  method Tabulate<K(!new, ==)>(nodes: seq<Node<K>>) returns (table: map<K, seq<K>>)
    requires UniqueKeys(nodes)
    ensures Tabulates(table, nodes)
  {
    table := map[];
    for i := 0 to |nodes|
      invariant forall key :: key in table <==> exists k :: 0 <= k < i && nodes[k].key == key
      invariant forall k :: 0 <= k < i ==> nodes[k].key in table && table[nodes[k].key] == nodes[k].dependsOn
    {
      table := table[nodes[i].key := nodes[i].dependsOn];
    }
    assert table.Keys == Keys(nodes);
  }
}
