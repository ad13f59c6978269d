/**
 The DAG service of the strategy manager (src/qmtl/dag_manager/strategy/dag_service.py):
 two mirrored adjacency maps updated in place, a depth-first cycle check, a
 breadth-first cycle extraction and a first-in-first-out topological sort.
 */
module DagServices {
  import opened Outcomes
  import opened Sequences
  import opened Graphs
  import opened Levels
  import opened Kahn
  import opened ShortestCycles

  datatype OrderError = CyclicDependency(path: seq<NodeId>) | Incomplete

  // ------------------------------------------------- what a run of additions records

  /** The recorded dependencies after one `add_node`: appended, or reset by an empty list. */
  function Record(g: Graph, node: DataNode): Graph {
    g[node.id := if node.dependencies == [] then [] else Deps(g, node.id) + node.dependencies]
  }

  function RecordAll(nodes: seq<DataNode>): (g: Graph)
    ensures forall v :: v in g <==> exists n :: n in nodes && n.id == v
  {
    if nodes == [] then map[]
    else
      assert nodes == nodes[..|nodes| - 1] + [nodes[|nodes| - 1]];
      Record(RecordAll(nodes[..|nodes| - 1]), nodes[|nodes| - 1])
  }

  lemma RecordOneMore(nodes: seq<DataNode>, i: nat)
    requires i < |nodes|
    ensures RecordAll(nodes[..i + 1]) == Record(RecordAll(nodes[..i]), nodes[i])
    ensures LinkAll(nodes[..i + 1]) == Linked(LinkAll(nodes[..i]), nodes[i])
    ensures NodeMap(nodes[..i + 1]) == NodeMap(nodes[..i])[nodes[i].id := nodes[i]]
    ensures InsertionOrder(nodes[..i + 1]) ==
            var ids := InsertionOrder(nodes[..i]); if nodes[i].id in ids then ids else ids + [nodes[i].id]
    ensures DistinctIds(nodes) ==> nodes[i].id !in RecordAll(nodes[..i])
  {
    assert nodes[..i + 1][..i] == nodes[..i];
  }

  lemma RecordedLists(g: Graph, node: DataNode)
    ensures forall v :: v != node.id ==> Deps(Record(g, node), v) == Deps(g, v)
    ensures Deps(Record(g, node), node.id) ==
            if node.dependencies == [] then [] else Deps(g, node.id) + node.dependencies
  {
  }

  lemma RecordFresh(g: Graph, node: DataNode)
    requires node.id !in g
    ensures Record(g, node) == g[node.id := node.dependencies]
  {
    assert [] + node.dependencies == node.dependencies;
  }

  /** With distinct ids, what is recorded is each node's own dependency list. */
  lemma {:induction false} RecordDistinct(nodes: seq<DataNode>)
    requires DistinctIds(nodes)
    ensures RecordAll(nodes) == GraphOf(nodes)
  {
    if nodes != [] {
      var rest := nodes[..|nodes| - 1];
      var last := nodes[|nodes| - 1];
      assert DistinctIds(rest);
      RecordDistinct(rest);
      assert last.id !in RecordAll(rest);
      RecordFresh(RecordAll(rest), last);
      GraphOfAppend(rest, last);
      SplitLast(nodes);
    }
  }

  function Appended(g: Graph, id: NodeId, more: seq<NodeId>): Graph {
    g[id := Deps(g, id) + more]
  }

  /** The adjacency map after noting `id` as a dependent of each entry of `deps`. */
  function Backlinked(adjacency: Graph, id: NodeId, deps: seq<NodeId>): Graph {
    if deps == [] then adjacency
    else Appended(Backlinked(adjacency, id, deps[..|deps| - 1]), deps[|deps| - 1], [id])
  }

  lemma CountAppended(s: seq<NodeId>, x: NodeId, y: NodeId)
    ensures multiset(s + [x])[y] == multiset(s)[y] + if x == y then 1 else 0
  {
  }

  /** Backlinking lists `id` once more under each entry of `deps`, and changes no other count. */
  lemma {:induction false} BacklinkedCounts(adjacency: Graph, id: NodeId, deps: seq<NodeId>, d: NodeId, n: NodeId)
    ensures multiset(Deps(Backlinked(adjacency, id, deps), d))[n] ==
            multiset(Deps(adjacency, d))[n] + if n == id then multiset(deps)[d] else 0
  {
    if deps != [] {
      var rest, last := deps[..|deps| - 1], deps[|deps| - 1];
      SplitLast(deps);
      BacklinkedCounts(adjacency, id, rest, d, n);
      CountAppended(rest, last, d);
      if d == last {
        CountAppended(Deps(Backlinked(adjacency, id, rest), d), id, n);
      }
    }
  }

  /** Backlinks join the list of a dependency at its end. */
  lemma {:induction false} BacklinksAppended(adjacency: Graph, id: NodeId, deps: seq<NodeId>, d: NodeId)
    ensures Deps(adjacency, d) <= Deps(Backlinked(adjacency, id, deps), d)
  {
    if deps != [] {
      BacklinksAppended(adjacency, id, deps[..|deps| - 1], d);
    }
  }

  lemma AppendedTwice(g: Graph, id: NodeId, more: seq<NodeId>, x: NodeId)
    ensures Appended(Appended(g, id, more), id, [x]) == Appended(g, id, more + [x])
  {
    assert Deps(g, id) + more + [x] == Deps(g, id) + (more + [x]);
  }

  /** The reverse map after `add_node`: dependencies appended, or reset by an empty list. */
  function Relinked(reverse: Graph, node: DataNode): Graph {
    if node.dependencies == [] then reverse[node.id := []] else Appended(reverse, node.id, node.dependencies)
  }

  /** The adjacency map after `add_node`: the node has an entry even when nothing depends on it. */
  function Linked(adjacency: Graph, node: DataNode): Graph {
    var r := Backlinked(adjacency, node.id, node.dependencies);
    if node.id in r then r else r[node.id := []]
  }

  lemma LinkedAlike(adjacency: Graph, node: DataNode)
    ensures forall d :: Deps(Linked(adjacency, node), d) == Deps(Backlinked(adjacency, node.id, node.dependencies), d)
  {
  }

  lemma LinkedMembers(adjacency: Graph, node: DataNode)
    ensures forall d, n :: n in Deps(Linked(adjacency, node), d) ==> n in Deps(adjacency, d) || n == node.id
  {
    LinkedAlike(adjacency, node);
    forall d, n | n in Deps(Linked(adjacency, node), d)
      ensures n in Deps(adjacency, d) || n == node.id
    {
      BacklinkedCounts(adjacency, node.id, node.dependencies, d, n);
      assert multiset(Deps(Linked(adjacency, node), d))[n] > 0;
    }
  }

  /** By how much more often `d` lists `n` as a dependent than `n` lists `d` as a dependency. */
  ghost function Excess(adjacency: Graph, g: Graph, d: NodeId, n: NodeId): int {
    var dependents: int, dependencies: int := multiset(Deps(adjacency, d))[n], multiset(Deps(g, n))[d];
    dependents - dependencies
  }

  /** An addition changes both sides alike, except that a reset forgets one side. */
  lemma ExcessAfterAdd(adjacency: Graph, g: Graph, node: DataNode, d: NodeId, n: NodeId)
    ensures Excess(Linked(adjacency, node), Record(g, node), d, n) ==
            Excess(adjacency, g, d, n)
            + if n == node.id && node.dependencies == [] then multiset(Deps(g, n))[d] else 0
  {
    LinkedAlike(adjacency, node);
    BacklinkedCounts(adjacency, node.id, node.dependencies, d, n);
    if n == node.id && node.dependencies != [] {
      assert Deps(Record(g, node), n) == Deps(g, n) + node.dependencies;
      assert multiset(Deps(g, n) + node.dependencies) == multiset(Deps(g, n)) + multiset(node.dependencies);
    }
  }

  /** Does this addition reset a list that is not empty? */
  predicate Resets(g: Graph, node: DataNode) {
    node.dependencies == [] && Deps(g, node.id) != []
  }

  /** Adding a node keeps the maps converse unless it resets a list that was not empty. */
  lemma ConverseAfterAdd(adjacency: Graph, g: Graph, node: DataNode)
    requires Converse(adjacency, g)
    ensures Converse(Linked(adjacency, node), Record(g, node)) <==> !Resets(g, node)
  {
    var adjacency', g' := Linked(adjacency, node), Record(g, node);
    if Resets(g, node) {
      var d := Deps(g, node.id)[0];
      ExcessAfterAdd(adjacency, g, node, d, node.id);
      assert multiset(Deps(g, node.id))[d] > 0;
      assert Excess(adjacency', g', d, node.id) > 0;
    } else {
      forall d, n
        ensures multiset(Deps(adjacency', d))[n] == multiset(Deps(g', n))[d]
      {
        ExcessAfterAdd(adjacency, g, node, d, n);
        assert Excess(adjacency, g, d, n) == 0;
      }
    }
  }

  // --------------------------------------------------------------- whole node lists

  function LinkAll(nodes: seq<DataNode>): Graph {
    if nodes == [] then map[] else Linked(LinkAll(nodes[..|nodes| - 1]), nodes[|nodes| - 1])
  }

  /** The ids of the list, each at its first position. */
  function InsertionOrder(nodes: seq<DataNode>): seq<NodeId> {
    if nodes == [] then []
    else
      var rest, id := InsertionOrder(nodes[..|nodes| - 1]), nodes[|nodes| - 1].id;
      if id in rest then rest else rest + [id]
  }

  /** No node of the list resets a list that is not empty by then. */
  predicate NoResets(nodes: seq<DataNode>) {
    nodes == []
    || (NoResets(nodes[..|nodes| - 1]) && !Resets(RecordAll(nodes[..|nodes| - 1]), nodes[|nodes| - 1]))
  }

  lemma {:induction false} DistinctNoResets(nodes: seq<DataNode>)
    requires DistinctIds(nodes)
    ensures NoResets(nodes)
  {
    if nodes != [] {
      RecordOneMore(nodes, |nodes| - 1);
      DistinctNoResets(nodes[..|nodes| - 1]);
    }
  }

  /** The excess never shrinks, so a reset is never repaired. */
  lemma {:induction false} ResetLeavesExcess(nodes: seq<DataNode>) returns (d: NodeId, n: NodeId)
    requires !NoResets(nodes)
    ensures Excess(LinkAll(nodes), RecordAll(nodes), d, n) > 0
  {
    var rest, last := nodes[..|nodes| - 1], nodes[|nodes| - 1];
    if NoResets(rest) {
      n := last.id;
      d := Deps(RecordAll(rest), n)[0];
      BuiltConverse(rest);
      assert Excess(LinkAll(rest), RecordAll(rest), d, n) == 0;
    } else {
      d, n := ResetLeavesExcess(rest);
    }
    ExcessAfterAdd(LinkAll(rest), RecordAll(rest), last, d, n);
  }

  lemma {:induction false} BuiltConverse(nodes: seq<DataNode>)
    requires NoResets(nodes)
    ensures Converse(LinkAll(nodes), RecordAll(nodes))
  {
    if nodes != [] {
      var rest := nodes[..|nodes| - 1];
      BuiltConverse(rest);
      ConverseAfterAdd(LinkAll(rest), RecordAll(rest), nodes[|nodes| - 1]);
    }
  }

  /** The maps built from a list are converse exactly when no node of the list resets a non-empty list. */
  lemma MirroredIffNoResets(nodes: seq<DataNode>)
    ensures Converse(LinkAll(nodes), RecordAll(nodes)) <==> NoResets(nodes)
  {
    if NoResets(nodes) {
      BuiltConverse(nodes);
    } else {
      var d, n := ResetLeavesExcess(nodes);
    }
  }

  /** The registered nodes with their recorded dependencies; ids that were only looked up do not count. */
  function RecordedIn(nodes: map<NodeId, DataNode>, reverse: Graph): Graph {
    map v | v in nodes :: Deps(reverse, v)
  }

  ghost predicate Consistent(nodes: map<NodeId, DataNode>, nodeOrder: seq<NodeId>, adjacency: Graph, reverse: Graph) {
    && Distinct(nodeOrder) && (forall v :: v in nodeOrder <==> v in nodes)
    && (forall v :: v in nodes ==> nodes[v].id == v && v in reverse)
    && (forall v :: v in reverse && v !in nodes ==> reverse[v] == [])
    && (forall d, n :: n in Deps(adjacency, d) ==> n in nodes)
  }

  lemma RecordedAfterAdd(nodes: map<NodeId, DataNode>, reverse: Graph, node: DataNode)
    requires forall v :: v in reverse && v !in nodes ==> reverse[v] == []
    ensures RecordedIn(nodes[node.id := node], Relinked(reverse, node)) == Record(RecordedIn(nodes, reverse), node)
  {
  }

  lemma ConsistentAfterAdd(nodes: map<NodeId, DataNode>, nodeOrder: seq<NodeId>, adjacency: Graph,
                           reverse: Graph, node: DataNode)
    requires Consistent(nodes, nodeOrder, adjacency, reverse)
    ensures Consistent(nodes[node.id := node], if node.id in nodes then nodeOrder else nodeOrder + [node.id],
                       Linked(adjacency, node), Relinked(reverse, node))
  {
    LinkedMembers(adjacency, node);
  }

  /** The variables captured by the nested function `dfs_detect_cycle`; `order` lists the finished ids. */
  class CycleSearch {
    var visited: set<NodeId>
    var tempStack: set<NodeId>
    ghost var order: seq<NodeId>

    constructor ()
      ensures visited == {} && tempStack == {} && order == []
    {
      visited, tempStack, order := {}, {}, [];
    }

    ghost predicate Valid(g: Graph, path: seq<NodeId>)
      reads this
    {
      && Grounded(g, order)
      && tempStack == Elements(path) && tempStack !! Elements(order)
      && visited == Elements(order) + tempStack
      && (path == [] || IsWalk(g, path))
    }

    method Enter(id: NodeId, ghost g: Graph, ghost path: seq<NodeId>)
      requires Valid(g, path) && id !in visited
      requires path != [] ==> id in Deps(g, path[|path| - 1])
      modifies this
      ensures Valid(g, path + [id]) && order == old(order) && tempStack == old(tempStack) + {id}
    {
      ExtendPath(g, path, id);
      tempStack := tempStack + {id};
      visited := visited + {id};
    }

    method Leave(id: NodeId, ghost g: Graph, ghost path: seq<NodeId>)
      requires Valid(g, path + [id]) && id !in path && (path == [] || IsWalk(g, path))
      requires forall d :: d in Deps(g, id) ==> d in order
      modifies this
      ensures Valid(g, path) && order == old(order) + [id]
    {
      assert id in Elements(path + [id]);
      ExtendGrounded(g, order, id);
      assert Elements(path + [id]) == Elements(path) + {id};
      tempStack := tempStack - {id};
      order := order + [id];
    }
  }

  class DAGService {
    var nodes: map<NodeId, DataNode>
    var nodeOrder: seq<NodeId>       // the insertion order of `nodes`
    var adjacency: Graph
    var reverse: Graph
    var verified: bool

    ghost function Recorded(): Graph
      reads this
    {
      RecordedIn(nodes, reverse)
    }

    ghost predicate Valid()
      reads this
    {
      Consistent(nodes, nodeOrder, adjacency, reverse) && (verified ==> Acyclic(Recorded()))
    }

    ghost predicate Mirrored()
      reads this
    {
      Converse(adjacency, Recorded())
    }

    constructor ()
      ensures Valid() && Mirrored() && nodes == map[] && nodeOrder == []
      ensures adjacency == map[] && Recorded() == map[] && !verified
    {
      nodes, nodeOrder, adjacency, reverse, verified := map[], [], map[], map[], false;
    }

    method Reset()
      modifies this
      ensures Valid() && Mirrored() && nodes == map[] && nodeOrder == []
      ensures adjacency == map[] && Recorded() == map[] && !verified
    {
      nodes, nodeOrder, adjacency, reverse, verified := map[], [], map[], map[], false;
    }

    /** The loop of `add_node`: note each dependency in both maps. */
    method LinkDependencies(id: NodeId, deps: seq<NodeId>)
      modifies this`reverse, this`adjacency
      ensures reverse == if deps == [] then old(reverse) else Appended(old(reverse), id, deps)
      ensures adjacency == Backlinked(old(adjacency), id, deps)
    {
      for i := 0 to |deps|
        invariant reverse == if i == 0 then old(reverse) else Appended(old(reverse), id, deps[..i])
        invariant adjacency == Backlinked(old(adjacency), id, deps[..i])
      {
        assert deps[..i + 1] == deps[..i] + [deps[i]];
        AppendedTwice(old(reverse), id, deps[..i], deps[i]);
        assert [] + [deps[i]] == [deps[i]];
        reverse := Appended(reverse, id, [deps[i]]);
        adjacency := Appended(adjacency, deps[i], [id]);
      }
      assert deps[..|deps|] == deps;
    }

    /** The updates `add_node` makes to the two maps. */
    method Link(node: DataNode)
      modifies this`reverse, this`adjacency
      ensures reverse == Relinked(old(reverse), node) && adjacency == Linked(old(adjacency), node)
    {
      LinkDependencies(node.id, node.dependencies);
      if node.dependencies == [] {
        reverse := reverse[node.id := []];
      }
      if node.id !in adjacency {
        adjacency := adjacency[node.id := []];
      }
    }

    method AddNode(node: DataNode)
      requires Valid()
      modifies this
      ensures Valid() && !verified
      ensures nodes == old(nodes)[node.id := node] && adjacency == Linked(old(adjacency), node)
      ensures nodeOrder == if node.id in old(nodes) then old(nodeOrder) else old(nodeOrder) + [node.id]
      ensures Recorded() == Record(old(Recorded()), node)
      ensures forall v :: v != node.id ==> Deps(Recorded(), v) == Deps(old(Recorded()), v)
      ensures Deps(Recorded(), node.id) ==
              if node.dependencies == [] then [] else Deps(old(Recorded()), node.id) + node.dependencies
      ensures old(Mirrored()) ==>
                (Mirrored() <==> !Resets(old(Recorded()), node))
    {
      RecordedAfterAdd(nodes, reverse, node);
      RecordedLists(Recorded(), node);
      ConsistentAfterAdd(nodes, nodeOrder, adjacency, reverse, node);
      if Converse(adjacency, Recorded()) {
        ConverseAfterAdd(adjacency, Recorded(), node);
      }
      nodeOrder := if node.id in nodes then nodeOrder else nodeOrder + [node.id];
      nodes := nodes[node.id := node];
      Link(node);
      verified := false;
    }

    /** `reverse_adjacency_list[id]`: reading a missing key inserts an empty list. */
    method ReverseEntry(id: NodeId) returns (deps: seq<NodeId>)
      requires Valid()
      modifies this`reverse
      ensures Valid() && Recorded() == old(Recorded()) && deps == Deps(Recorded(), id)
      ensures reverse == if id in old(reverse) then old(reverse) else old(reverse)[id := []]
    {
      if id !in reverse {
        reverse := reverse[id := []];
      }
      deps := reverse[id];
      assert Recorded() == old(Recorded());
    }

    // -------------------------------------------------------------------- cycles

    method FindCyclePath(start: NodeId) returns (path: seq<NodeId>)
      requires Valid()
      modifies this`reverse
      ensures Valid() && Recorded() == old(Recorded())
      ensures path == [] <==> !OnCycle(Recorded(), start)
      ensures path != [] ==> path[0] == start && ShortestCycle(Recorded(), path)
    {
      ghost var g := Recorded();
      var visited: map<NodeId, Option<NodeId>> := map[start := None];
      var queue := [start];
      ghost var dist: map<NodeId, nat> := map[start := 0];
      ghost var done: set<NodeId> := {};
      while queue != []
        invariant Valid() && Recorded() == g
        invariant Tree(g, start, visited, dist) && Frontier(g, start, dist, done, queue)
        invariant dist.Keys <= Universe(g) + {start}
        decreases Universe(g) + {start} - done
      {
        var current := queue[0];
        BeginExpanding(g, start, dist, done, queue);
        queue := queue[1..];
        var neighbors := ReverseEntry(current);
        var closes;
        closes, visited, queue, dist := ScanNeighbors(g, start, current, neighbors, visited, queue, dist, done);
        if closes {
          path := ReadCycle(g, start, current, visited, dist);
          return;
        }
        EndExpanding(g, start, dist, done, current, queue);
        done := done + {current};
      }
      Exhausted(g, start, dist, done);
      return [];
    }

    method DfsDetectCycle(id: NodeId, search: CycleSearch, ghost g: Graph, ghost path: seq<NodeId>)
      returns (cycle: Option<seq<NodeId>>)
      requires Valid() && Recorded() == g && search.Valid(g, path)
      requires id in Universe(g)
      requires path != [] ==> id in Deps(g, path[|path| - 1])
      modifies this`reverse, search
      ensures Valid() && Recorded() == g
      ensures cycle.None? ==> search.Valid(g, path) && id in search.order && Within(old(search.order), search.order)
      ensures cycle.Some? ==> ShortestCycle(g, cycle.value)
      decreases Universe(g) - search.tempStack
    {
      if id in search.tempStack {
        PathClosesCycle(g, path, id);
        var found := FindCyclePath(id);
        return Some(found);
      }
      if id in search.visited {
        return None;
      }
      search.Enter(id, g, path);
      var deps := ReverseEntry(id);
      DepsInUniverse(g, id);
      for i := 0 to |deps|
        invariant Valid() && Recorded() == g
        invariant search.Valid(g, path + [id]) && Within(old(search.order), search.order)
        invariant Within(deps[..i], search.order)
      {
        ghost var before := search.order;
        cycle := DfsDetectCycle(deps[i], search, g, path + [id]);
        if cycle.Some? {
          return;
        }
        WithinStep(deps, i, before, search.order);
      }
      assert deps[..|deps|] == deps;
      search.Leave(id, g, path);
      cycle := None;
    }

    /** Succeeds exactly when there is no cycle, and otherwise reports a shortest one through its first node. */
    method VerifyAcyclic() returns (r: Result<bool, seq<NodeId>>)
      requires Valid()
      modifies this`reverse, this`verified
      ensures Valid() && Recorded() == old(Recorded())
      ensures r == Ok(true) <==> Acyclic(Recorded())
      ensures verified == r.Ok?
      ensures r.Err? ==> ShortestCycle(Recorded(), r.error)
    {
      ghost var g := Recorded();
      var search := new CycleSearch();
      for i := 0 to |nodeOrder|
        invariant Valid() && Recorded() == g && verified == old(verified)
        invariant search.Valid(g, [])
        invariant Within(nodeOrder[..i], search.order)
      {
        ghost var before := search.order;
        if nodeOrder[i] !in search.visited {
          var cycle := DfsDetectCycle(nodeOrder[i], search, g, []);
          if cycle.Some? {
            return Err(cycle.value);
          }
        }
        WithinStep(nodeOrder, i, before, search.order);
      }
      assert nodeOrder[..|nodeOrder|] == nodeOrder;
      GroundedAcyclic(g, search.order);
      verified := true;
      return Ok(true);
    }

    /** The first half of `build_dag`: start over and add every node. */
    method AddAll(nodeList: seq<DataNode>)
      modifies this
      ensures Valid() && nodes == NodeMap(nodeList)
      ensures Recorded() == RecordAll(nodeList) && adjacency == LinkAll(nodeList)
      ensures nodeOrder == InsertionOrder(nodeList)
    {
      Reset();
      for i := 0 to |nodeList|
        invariant Valid() && nodes == NodeMap(nodeList[..i])
        invariant Recorded() == RecordAll(nodeList[..i]) && adjacency == LinkAll(nodeList[..i])
        invariant nodeOrder == InsertionOrder(nodeList[..i])
      {
        RecordOneMore(nodeList, i);
        AddNode(nodeList[i]);
      }
      assert nodeList[..|nodeList|] == nodeList;
    }

    method BuildDag(nodeList: seq<DataNode>) returns (r: Result<bool, seq<NodeId>>)
      modifies this
      ensures Valid() && nodes == NodeMap(nodeList) && nodeOrder == InsertionOrder(nodeList)
      ensures Recorded() == RecordAll(nodeList) && adjacency == LinkAll(nodeList)
      ensures Mirrored() <==> NoResets(nodeList)
      ensures DistinctIds(nodeList) ==> Recorded() == GraphOf(nodeList) && Mirrored()
      ensures r == Ok(true) <==> Acyclic(Recorded())
      ensures verified == r.Ok?
      ensures r.Err? ==> ShortestCycle(Recorded(), r.error)
    {
      AddAll(nodeList);
      MirroredIffNoResets(nodeList);
      if DistinctIds(nodeList) {
        RecordDistinct(nodeList);
        DistinctNoResets(nodeList);
      }
      r := VerifyAcyclic();
    }

    // ------------------------------------------------------------------- sorting

    /** The inner loop: one more for every entry of the dependency list. */
    method CountEntries(inDegree0: map<NodeId, int>, id: NodeId, deps: seq<NodeId>)
      returns (inDegree: map<NodeId, int>)
      requires id in inDegree0
      ensures inDegree == inDegree0[id := inDegree0[id] + |deps|]
    {
      inDegree := inDegree0;
      for j := 0 to |deps|
        invariant inDegree == inDegree0[id := inDegree0[id] + j]
      {
        inDegree := inDegree[id := inDegree[id] + 1];
      }
    }

    /** Registered ids have an entry in the reverse map, so reading it here inserts nothing. */
    method InDegrees() returns (inDegree: map<NodeId, int>)
      requires Valid()
      ensures inDegree.Keys == nodes.Keys && forall v :: v in nodes ==> inDegree[v] == |Recorded()[v]|
    {
      inDegree := map v | v in nodes :: 0;
      for i := 0 to |nodeOrder|
        invariant inDegree.Keys == nodes.Keys
        invariant forall k :: 0 <= k < i ==> inDegree[nodeOrder[k]] == |Deps(reverse, nodeOrder[k])|
        invariant forall k :: i <= k < |nodeOrder| ==> inDegree[nodeOrder[k]] == 0
      {
        inDegree := CountEntries(inDegree, nodeOrder[i], reverse[nodeOrder[i]]);
      }
    }

    method InitialQueue(inDegree: map<NodeId, int>) returns (queue: seq<NodeId>)
      requires Valid() && inDegree.Keys == nodes.Keys
      requires forall v :: v in nodes ==> inDegree[v] == |Recorded()[v]|
      ensures queue == Sources(Recorded(), nodeOrder)
    {
      queue := [];
      for i := 0 to |nodeOrder|
        invariant queue == Sources(Recorded(), nodeOrder[..i])
      {
        assert nodeOrder[..i + 1][..i] == nodeOrder[..i];
        if inDegree[nodeOrder[i]] == 0 {
          queue := queue + [nodeOrder[i]];
        }
      }
      assert nodeOrder[..|nodeOrder|] == nodeOrder;
    }

    /** The inner loop: count down the dependents of the node emitted last. */
    method ReleaseDependents(inDegree0: map<NodeId, int>, dependents: seq<NodeId>, queue0: seq<NodeId>)
      returns (inDegree: map<NodeId, int>, queue: seq<NodeId>)
      requires forall v :: v in dependents ==> v in inDegree0
      ensures (inDegree, queue) == Released(inDegree0, queue0, dependents)
    {
      inDegree, queue := inDegree0, queue0;
      for j := 0 to |dependents|
        invariant forall v :: v in dependents ==> v in inDegree
        invariant Released(inDegree, queue, dependents[j..]) == Released(inDegree0, queue0, dependents)
      {
        assert dependents[j..][1..] == dependents[j + 1..];
        var v := dependents[j];
        inDegree := inDegree[v := inDegree[v] - 1];
        if inDegree[v] == 0 {
          queue := queue + [v];
        }
      }
    }

    /** The queue loop of `get_topological_order`: what it emits on any maps, and what that means on mirrored ones. */
    method EmitReady(inDegree0: map<NodeId, int>) returns (order: seq<NodeId>)
      requires Valid()
      requires inDegree0.Keys == nodes.Keys && forall v :: v in nodes ==> inDegree0[v] == |Recorded()[v]|
      ensures order == KahnOrder(adjacency, nodeOrder, Recorded())
      ensures Mirrored() ==> EmitsUnblocked(Recorded(), order)
    {
      ghost var g := Recorded();
      assert inDegree0 == map v | v in g :: |g[v]|;
      var inDegree := inDegree0;
      var queue := InitialQueue(inDegree);
      order := [];
      assert [] + Drained(adjacency, inDegree, queue) == Drained(adjacency, inDegree, queue);
      while queue != []
        invariant inDegree.Keys == nodes.Keys
        invariant order + Drained(adjacency, inDegree, queue) == KahnOrder(adjacency, nodeOrder, g)
        decreases |Positive(inDegree)| + |queue|
      {
        DrainedOneMore(adjacency, inDegree, queue, order);
        var current := queue[0];
        order := order + [current];
        inDegree, queue := ReleaseDependents(inDegree, Deps(adjacency, current), queue[1..]);
      }
      assert order + [] == order;
      if Mirrored() {
        KahnOrderEmitsUnblocked(adjacency, nodeOrder, g);
      }
    }

    method GetTopologicalOrder() returns (r: Result<seq<NodeId>, OrderError>)
      requires Valid()
      modifies this`reverse, this`verified
      ensures Valid() && Recorded() == old(Recorded())
      ensures r.Err? && r.error.CyclicDependency? <==> !Acyclic(Recorded())
      ensures r.Err? && r.error.CyclicDependency? ==> ShortestCycle(Recorded(), r.error.path)
      ensures var order := KahnOrder(adjacency, nodeOrder, Recorded());
              Acyclic(Recorded()) ==> r == if |order| == |nodes| then Ok(order) else Err(Incomplete)
      ensures Mirrored() ==> (r.Ok? <==> Sortable(Recorded()))
      ensures Mirrored() && r.Ok? ==> IsTopoOrder(Recorded(), r.value) && LevelSorted(Recorded(), r.value)
      ensures Mirrored() && r == Err(Incomplete) ==> Acyclic(Recorded()) && !Closed(Recorded())
    {
      if !verified {
        var check := VerifyAcyclic();
        if check.Err? {
          return Err(CyclicDependency(check.error));
        }
      }
      var inDegree := InDegrees();
      var order := EmitReady(inDegree);
      assert nodes.Keys == Recorded().Keys;
      if |order| != |nodes| {
        return Err(Incomplete);
      }
      return Ok(order);
    }

    /** `get_topological_sort_result`: the order together with the registered node of every element. */
    method GetTopologicalSortResult() returns (r: Result<(seq<NodeId>, map<NodeId, DataNode>), OrderError>)
      requires Valid()
      modifies this`reverse, this`verified
      ensures Valid() && Recorded() == old(Recorded())
      ensures r.Err? && r.error.CyclicDependency? <==> !Acyclic(Recorded())
      ensures r.Err? && r.error.CyclicDependency? ==> ShortestCycle(Recorded(), r.error.path)
      ensures var order := KahnOrder(adjacency, nodeOrder, Recorded());
              Acyclic(Recorded()) ==> if |order| == |nodes| then r.Ok? && r.value.0 == order else r == Err(Incomplete)
      ensures r.Ok? ==> r.value.1 == map v | v in r.value.0 && v in nodes :: nodes[v]
      ensures Mirrored() ==> (r.Ok? <==> Sortable(Recorded()))
      ensures Mirrored() && r.Ok? ==>
                IsTopoOrder(Recorded(), r.value.0) && LevelSorted(Recorded(), r.value.0) && r.value.1 == nodes
    {
      var order := GetTopologicalOrder();
      if Mirrored() && order.Ok? {
        EveryNodeListed(nodes, reverse, order.value);
      }
      match order
      case Err(error) => r := Err(error);
      case Ok(ids) => r := Ok((ids, map v | v in ids && v in nodes :: nodes[v]));
    }

    // ------------------------------------------------------------------- queries

    method GetDependencies(id: NodeId) returns (r: seq<DataNode>)
      requires Valid()
      ensures r == Resolve(nodes, Deps(reverse, id))
    {
      if id !in reverse {
        return [];
      }
      r := ResolveAll(reverse[id]);
    }

    method GetDependents(id: NodeId) returns (r: seq<DataNode>)
      requires Valid()
      ensures r == Resolve(nodes, Deps(adjacency, id))
    {
      if id !in adjacency {
        return [];
      }
      r := ResolveAll(adjacency[id]);
    }

    method ResolveAll(ids: seq<NodeId>) returns (r: seq<DataNode>)
      ensures r == Resolve(nodes, ids)
    {
      r := [];
      for i := 0 to |ids|
        invariant r == Resolve(nodes, ids[..i])
      {
        assert ids[..i + 1][..i] == ids[..i];
        if ids[i] in nodes {
          r := r + [nodes[ids[i]]];
        }
      }
      assert ids[..|ids|] == ids;
    }

    /** `n` is listed among the dependents of `d` exactly as often as `d` among the dependencies of `n`. */
    lemma QueriesAreConverse(d: NodeId, n: NodeId)
      requires Valid() && Mirrored() && d in nodes && n in nodes
      ensures multiset(Resolve(nodes, Deps(adjacency, d)))[nodes[n]] ==
              multiset(Resolve(nodes, Deps(reverse, n)))[nodes[d]]
    {
      ResolveCount(nodes, Deps(adjacency, d), n);
      ResolveCount(nodes, Deps(reverse, n), d);
      assert Deps(Recorded(), n) == Deps(reverse, n);
    }
  }

  lemma EveryNodeListed(nodes: map<NodeId, DataNode>, reverse: Graph, order: seq<NodeId>)
    requires IsTopoOrder(RecordedIn(nodes, reverse), order)
    ensures (map v | v in order && v in nodes :: nodes[v]) == nodes
  {
    assert forall v :: v in order <==> v in RecordedIn(nodes, reverse);
  }

  /** The registered nodes among `ids`, in order and with repeats. */
  function Resolve(nodes: map<NodeId, DataNode>, ids: seq<NodeId>): seq<DataNode> {
    if ids == [] then []
    else
      var last := ids[|ids| - 1];
      Resolve(nodes, ids[..|ids| - 1]) + if last in nodes then [nodes[last]] else []
  }

  /** The order of the ids is kept. */
  lemma {:induction false} ResolveConcat(nodes: map<NodeId, DataNode>, a: seq<NodeId>, b: seq<NodeId>)
    ensures Resolve(nodes, a + b) == Resolve(nodes, a) + Resolve(nodes, b)
  {
    if b == [] {
      assert a + b == a;
    } else {
      var rest, last := b[..|b| - 1], b[|b| - 1];
      ResolveConcat(nodes, a, rest);
      assert (a + b)[..|a + b| - 1] == a + rest && (a + b)[|a + b| - 1] == last;
    }
  }

  lemma {:induction false} ResolveCount(nodes: map<NodeId, DataNode>, ids: seq<NodeId>, n: NodeId)
    requires n in nodes && forall v :: v in nodes ==> nodes[v].id == v
    ensures multiset(Resolve(nodes, ids))[nodes[n]] == multiset(ids)[n]
  {
    if ids != [] {
      ResolveCount(nodes, ids[..|ids| - 1], n);
      SplitLast(ids);
    }
  }
}
