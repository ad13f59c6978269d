/**
 The in-memory node service and its two-way index between nodes and the strategy
 versions that contain them (src/qmtl/dag_manager/registry/services/node/memory_impl.py).
 */
module NodeRegistry {
  import opened Outcomes
  import opened Sequences
  import opened Graphs

  type StrategyId = string

  /** The list under a key; a missing key counts as empty. */
  function Entry<K(==), V>(m: map<K, seq<V>>, k: K): seq<V> {
    if k in m then m[k] else []
  }

  /** `list.remove(x)`: the first occurrence goes. */
  function RemoveFirst<T(==)>(s: seq<T>, x: T): seq<T> {
    if s == [] then []
    else if s[0] == x then s[1..]
    else [s[0]] + RemoveFirst(s[1..], x)
  }

  lemma {:induction false} RemoveFirstExact<T(!new)>(s: seq<T>, x: T)
    requires Distinct(s)
    ensures Distinct(RemoveFirst(s, x))
    ensures forall y :: y in RemoveFirst(s, x) <==> y in s && y != x
  {
    if s != [] {
      assert s == [s[0]] + s[1..];
      if s[0] != x {
        RemoveFirstExact(s[1..], x);
        var r := RemoveFirst(s[1..], x);
        assert RemoveFirst(s, x) == [s[0]] + r;
        assert s[0] !in s[1..];
      }
    }
  }

  /** Everything else keeps its order. */
  lemma {:induction false} RemoveFirstSplit<T>(a: seq<T>, x: T, b: seq<T>)
    requires x !in a
    ensures RemoveFirst(a + [x] + b, x) == a + b
  {
    if a == [] {
      assert a + [x] + b == [x] + b && a + b == b;
    } else {
      RemoveFirstSplit(a[1..], x, b);
      assert (a + [x] + b)[1..] == a[1..] + [x] + b;
      assert (a + [x] + b)[0] == a[0];
      assert [a[0]] + (a[1..] + b) == a + b;
    }
  }

  ghost predicate AllDistinct<K(!new), V>(m: map<K, seq<V>>) {
    forall k :: k in m ==> Distinct(m[k])
  }

  /** The two maps list each other's keys, without repeats, and only registered nodes. */
  ghost predicate Consistent(nodes: set<NodeId>, byNode: map<NodeId, seq<StrategyId>>,
                             byStrategy: map<StrategyId, seq<NodeId>>)
  {
    && (forall n, s :: s in Entry(byNode, n) <==> n in Entry(byStrategy, s))
    && AllDistinct(byNode) && AllDistinct(byStrategy)
    && (forall n :: n in byNode && byNode[n] != [] ==> n in nodes)
  }

  /** The relation both maps represent. */
  ghost predicate Contains(byNode: map<NodeId, seq<StrategyId>>, s: StrategyId, n: NodeId) {
    s in Entry(byNode, n)
  }

  lemma AddKeeps(nodes: set<NodeId>, byNode: map<NodeId, seq<StrategyId>>,
                 byStrategy: map<StrategyId, seq<NodeId>>, s: StrategyId, n: NodeId)
    requires Consistent(nodes, byNode, byStrategy) && n in nodes
    ensures Consistent(nodes, byNode[n := AppendNew(Entry(byNode, n), s)],
                       byStrategy[s := AppendNew(Entry(byStrategy, s), n)])
  {
    var byNode', byStrategy' := byNode[n := AppendNew(Entry(byNode, n), s)],
                                byStrategy[s := AppendNew(Entry(byStrategy, s), n)];
    forall n', s'
      ensures s' in Entry(byNode', n') <==> n' in Entry(byStrategy', s')
    {
      assert s' in Entry(byNode, n') <==> n' in Entry(byStrategy, s');
    }
  }

  lemma DeleteKeeps(nodes: set<NodeId>, byNode: map<NodeId, seq<StrategyId>>,
                    byStrategy: map<StrategyId, seq<NodeId>>, byStrategy': map<StrategyId, seq<NodeId>>, n: NodeId)
    requires Consistent(nodes, byNode, byStrategy) && AllDistinct(byStrategy')
    requires forall s, x ::
               x in Entry(byStrategy', s) <==> x in Entry(byStrategy, s) && !(x == n && s in Entry(byNode, n))
    ensures Consistent(nodes - {n}, byNode - {n}, byStrategy')
  {
    forall n', s
      ensures s in Entry(byNode - {n}, n') <==> n' in Entry(byStrategy', s)
    {
      assert s in Entry(byNode, n') <==> n' in Entry(byStrategy, s);
    }
  }

  class InMemoryNodeService {
    var nodes: map<NodeId, DataNode>
    var nodeStrategies: map<NodeId, seq<StrategyId>>
    var strategyNodes: map<StrategyId, seq<NodeId>>

    ghost predicate Valid()
      reads this
    {
      && Consistent(nodes.Keys, nodeStrategies, strategyNodes)
      && forall n :: n in nodes ==> nodes[n].id == n
    }

    constructor ()
      ensures Valid() && nodes == map[] && forall s, n :: !Contains(nodeStrategies, s, n)
    {
      nodes, nodeStrategies, strategyNodes := map[], map[], map[];
    }

    method CreateNode(node: DataNode) returns (id: NodeId)
      requires Valid()
      modifies this`nodes
      ensures Valid() && id == node.id && nodes == old(nodes)[node.id := node]
    {
      nodes := nodes[node.id := node];
      return node.id;
    }

    /** Registered nodes only; a relation that exists already is not duplicated. */
    method AddContainsRelationship(s: StrategyId, n: NodeId)
      requires Valid()
      modifies this`nodeStrategies, this`strategyNodes
      ensures Valid()
      ensures forall s', n' :: Contains(nodeStrategies, s', n') <==>
                Contains(old(nodeStrategies), s', n') || (s' == s && n' == n && n in nodes)
      ensures nodeStrategies == if n in nodes then old(nodeStrategies)[n := AppendNew(old(Entry(nodeStrategies, n)), s)]
                                else old(nodeStrategies)
      ensures strategyNodes == if n in nodes then old(strategyNodes)[s := AppendNew(old(Entry(strategyNodes, s)), n)]
                               else old(strategyNodes)
    {
      if n !in nodes {
        return;
      }
      AddKeeps(nodes.Keys, nodeStrategies, strategyNodes, s, n);
      var strategies := AppendNew(Entry(nodeStrategies, n), s);
      var members := AppendNew(Entry(strategyNodes, s), n);
      nodeStrategies := nodeStrategies[n := strategies];
      strategyNodes := strategyNodes[s := members];
    }

    /** Keys whose list becomes empty are deleted. */
    method RemoveContainsRelationship(s: StrategyId, n: NodeId)
      requires Valid()
      modifies this`nodeStrategies, this`strategyNodes
      ensures Valid()
      ensures forall s', n' :: Contains(nodeStrategies, s', n') <==>
                Contains(old(nodeStrategies), s', n') && !(s' == s && n' == n)
      ensures nodeStrategies == RemoveFromEntry(old(nodeStrategies), n, s)
      ensures strategyNodes == RemoveFromEntry(old(strategyNodes), s, n)
    {
      RemoveFirstExact(Entry(nodeStrategies, n), s);
      RemoveFirstExact(Entry(strategyNodes, s), n);
      nodeStrategies := RemoveFromEntry(nodeStrategies, n, s);
      strategyNodes := RemoveFromEntry(strategyNodes, s, n);
    }

    /** Deleting a node also takes it out of every strategy that contained it. */
    method DeleteNode(n: NodeId) returns (deleted: bool)
      requires Valid()
      modifies this
      ensures Valid()
      ensures deleted <==> n in old(nodes)
      ensures nodes == old(nodes) - {n}
      ensures forall s, n' :: Contains(nodeStrategies, s, n') <==> Contains(old(nodeStrategies), s, n') && n' != n
    {
      if n !in nodes {
        return false;
      }
      nodes := nodes - {n};
      ghost var byNode, byStrategy := nodeStrategies, strategyNodes;
      if n in nodeStrategies {
        strategyNodes := RemoveFromAll(strategyNodes, nodeStrategies[n], n);
        nodeStrategies := nodeStrategies - {n};
      }
      assert nodeStrategies == byNode - {n};
      DeleteKeeps(old(nodes).Keys, byNode, byStrategy, strategyNodes, n);
      assert nodes.Keys == old(nodes).Keys - {n};
      return true;
    }

    method GetNodeRefCount(n: NodeId) returns (count: nat)
      requires Valid()
      ensures count == |Containing(strategyNodes, n)|
    {
      RefCountIsNumberOfStrategies(nodes.Keys, nodeStrategies, strategyNodes, n);
      if n !in nodeStrategies {
        return 0;
      }
      return |nodeStrategies[n]|;
    }

    method GetNodeRefStrategies(n: NodeId) returns (strategies: seq<StrategyId>)
      requires Valid()
      ensures Distinct(strategies) && forall s :: s in strategies <==> Contains(nodeStrategies, s, n)
      ensures n in nodeStrategies ==> strategies == nodeStrategies[n]
    {
      if n !in nodeStrategies {
        return [];
      }
      return nodeStrategies[n];
    }

    method GetStrategyNodes(s: StrategyId) returns (r: seq<DataNode>)
      requires Valid()
      ensures Ids(r) == Entry(strategyNodes, s)
      ensures forall node :: node in r <==>
                node.id in nodes && nodes[node.id] == node && Contains(nodeStrategies, s, node.id)
    {
      r := [];
      var members := Entry(strategyNodes, s);
      for i := 0 to |members|
        invariant Ids(r) == members[..i]
        invariant forall node :: node in r ==> node.id in nodes && nodes[node.id] == node
      {
        TakeOneMore(members, i);
        assert s in Entry(nodeStrategies, members[i]);
        if members[i] in nodes {
          assert Ids(r + [nodes[members[i]]]) == Ids(r) + [members[i]];
          r := r + [nodes[members[i]]];
        }
      }
      assert members[..|members|] == members;
      forall node
        ensures node in r <==> node.id in nodes && nodes[node.id] == node && Contains(nodeStrategies, s, node.id)
      {
        IdsMember(r, node.id);
      }
    }
  }

  lemma IdsMember(nodes: seq<DataNode>, id: NodeId)
    ensures id in Ids(nodes) <==> exists n :: n in nodes && n.id == id
  {
    if n :| n in nodes && n.id == id {
      var i :| 0 <= i < |nodes| && nodes[i] == n;
      assert Ids(nodes)[i] == id;
    }
    if id in Ids(nodes) {
      var i :| 0 <= i < |nodes| && Ids(nodes)[i] == id;
      assert nodes[i] in nodes;
    }
  }

  function AppendNew<T(==,!new)>(s: seq<T>, x: T): (r: seq<T>)
    ensures forall y :: y in r <==> y in s || y == x
    ensures Distinct(s) ==> Distinct(r)
    ensures s <= r && |r| == |s| + if x in s then 0 else 1
  {
    if x in s then s else s + [x]
  }

  /** Remove one value from the list under a key; an emptied list takes its key with it. */
  function RemoveFromEntry<K(==,!new), V(==)>(m: map<K, seq<V>>, k: K, x: V): (r: map<K, seq<V>>)
    ensures Entry(r, k) == RemoveFirst(Entry(m, k), x)
    ensures forall k' :: k' != k ==> Entry(r, k') == Entry(m, k') && (k' in r <==> k' in m)
    ensures k in r <==> k in m && (x !in m[k] || |m[k]| > 1)
  {
    if k in m && x in m[k] then
      var rest := RemoveFirst(m[k], x);
      if rest == [] then m - {k} else m[k := rest]
    else
      RemoveAbsent(Entry(m, k), x);
      m
  }

  lemma {:induction false} RemoveAbsent<T>(s: seq<T>, x: T)
    requires x !in s
    ensures RemoveFirst(s, x) == s
  {
    if s != [] {
      RemoveAbsent(s[1..], x);
      assert s == [s[0]] + s[1..];
    }
  }

  /** The loop of `delete_node`: emptied lists keep their keys here. */
  method RemoveFromAll(m: map<StrategyId, seq<NodeId>>, strategies: seq<StrategyId>, n: NodeId)
    returns (r: map<StrategyId, seq<NodeId>>)
    requires AllDistinct(m)
    ensures AllDistinct(r)
    ensures forall s, x :: x in Entry(r, s) <==> x in Entry(m, s) && !(x == n && s in strategies)
    ensures r.Keys == m.Keys
    ensures forall s :: s in m ==> r[s] == m[s] || (s in strategies && r[s] == RemoveFirst(m[s], n))
  {
    r := m;
    for i := 0 to |strategies|
      invariant AllDistinct(r)
      invariant forall s, x :: x in Entry(r, s) <==> x in Entry(m, s) && !(x == n && s in strategies[..i])
      invariant r.Keys == m.Keys
      invariant forall s :: s in m ==> r[s] == m[s] || (s in strategies[..i] && r[s] == RemoveFirst(m[s], n))
    {
      TakeOneMore(strategies, i);
      var s := strategies[i];
      if s in r && n in r[s] {
        RemoveFirstExact(r[s], n);
        RemoveFirstExact(m[s], n);
        r := r[s := RemoveFirst(r[s], n)];
      }
    }
    assert strategies[..|strategies|] == strategies;
  }

  // ------------------------------------------------------------------ reference counts

  /** The strategies whose node list contains `n`. */
  ghost function Containing(byStrategy: map<StrategyId, seq<NodeId>>, n: NodeId): set<StrategyId> {
    set s | s in byStrategy && n in byStrategy[s]
  }

  /** The reference count of a node is the number of strategies that list it. */
  lemma RefCountIsNumberOfStrategies(nodes: set<NodeId>, byNode: map<NodeId, seq<StrategyId>>,
                                     byStrategy: map<StrategyId, seq<NodeId>>, n: NodeId)
    requires Consistent(nodes, byNode, byStrategy)
    ensures |Entry(byNode, n)| == |Containing(byStrategy, n)|
  {
    var l := Entry(byNode, n);
    DistinctCard(l);
    forall s
      ensures s in Elements(l) <==> s in Containing(byStrategy, n)
    {
      assert s in l <==> n in Entry(byStrategy, s);
    }
    assert Elements(l) == Containing(byStrategy, n);
  }
}
