/**
 Selecting the nodes that can run next (src/qmtl/dag_manager/core/ready_node_selector.py):
 pending nodes whose dependencies are all completed, in topological order.
 */
module ReadySelection {
  import opened Outcomes
  import opened Sequences
  import opened Graphs
  import opened GraphBuilding

  datatype Status = PENDING | READY | RUNNING | COMPLETED | FAILED | Other(text: string)

  type StatusMap = map<NodeId, Status>

  predicate IsPending(statuses: StatusMap, v: NodeId) {
    v !in statuses || statuses[v].PENDING? || statuses[v].READY?
  }

  predicate IsCompleted(statuses: StatusMap, v: NodeId) {
    v in statuses && statuses[v].COMPLETED?
  }

  predicate IsReady(edges: Graph, statuses: StatusMap, v: NodeId) {
    IsPending(statuses, v) && forall d :: d in Deps(edges, v) ==> IsCompleted(statuses, d)
  }

  /** The ready elements of `order`, in its order. */
  function ReadyAmong(edges: Graph, statuses: StatusMap, order: seq<NodeId>): seq<NodeId> {
    if order == [] then []
    else
      var last := order[|order| - 1];
      ReadyAmong(edges, statuses, order[..|order| - 1]) + if IsReady(edges, statuses, last) then [last] else []
  }

  lemma {:induction false} ReadyAmongExact(edges: Graph, statuses: StatusMap, order: seq<NodeId>)
    ensures forall v :: v in ReadyAmong(edges, statuses, order) <==> v in order && IsReady(edges, statuses, v)
    ensures Distinct(order) ==> Distinct(ReadyAmong(edges, statuses, order))
  {
    if order != [] {
      ReadyAmongExact(edges, statuses, order[..|order| - 1]);
      SplitLast(order);
    }
  }

  ghost predicate Before(order: seq<NodeId>, x: NodeId, y: NodeId) {
    exists a, b :: 0 <= a < b < |order| && order[a] == x && order[b] == y
  }

  ghost predicate InOrder(s: seq<NodeId>, order: seq<NodeId>) {
    forall i, j :: 0 <= i < j < |s| ==> Before(order, s[i], s[j])
  }

  lemma InLongerOrder(s: seq<NodeId>, order: seq<NodeId>, last: NodeId)
    requires InOrder(s, order) && forall x :: x in s ==> x in order
    ensures InOrder(s, order + [last]) && InOrder(s + [last], order + [last])
  {
    forall i, j | 0 <= i < j <= |s|
      ensures Before(order + [last], (s + [last])[i], (s + [last])[j])
    {
      if j < |s| {
        assert Before(order, s[i], s[j]);
        var a, b :| 0 <= a < b < |order| && order[a] == s[i] && order[b] == s[j];
        assert (order + [last])[a] == s[i] && (order + [last])[b] == s[j];
      } else {
        assert s[i] in order;
        var a :| 0 <= a < |order| && order[a] == s[i];
        assert (order + [last])[a] == s[i] && (order + [last])[|order|] == last;
      }
    }
    forall i, j | 0 <= i < j < |s|
      ensures Before(order + [last], s[i], s[j])
    {
      assert Before(order + [last], (s + [last])[i], (s + [last])[j]);
    }
  }

  /** The selection keeps the order it is taken from. */
  lemma {:induction false} ReadyInOrder(edges: Graph, statuses: StatusMap, order: seq<NodeId>)
    ensures InOrder(ReadyAmong(edges, statuses, order), order)
  {
    if order != [] {
      var rest, last := order[..|order| - 1], order[|order| - 1];
      ReadyInOrder(edges, statuses, rest);
      ReadyAmongExact(edges, statuses, rest);
      InLongerOrder(ReadyAmong(edges, statuses, rest), rest, last);
      SplitLast(order);
      assert ReadyAmong(edges, statuses, rest) + [] == ReadyAmong(edges, statuses, rest);
    }
  }

  // ---------------------------------------------------------------- upstream lists

  /** Upstream lists by id; nodes that share an id have their lists joined. */
  function EdgesMap(nodes: seq<DataNode>): Graph {
    if nodes == [] then map[]
    else
      var last := nodes[|nodes| - 1];
      var g := EdgesMap(nodes[..|nodes| - 1]);
      g[last.id := Deps(g, last.id) + last.dependencies]
  }

  lemma {:induction false} EdgesMapKeys(nodes: seq<DataNode>)
    ensures EdgesMap(nodes).Keys == GraphOf(nodes).Keys
  {
    if nodes != [] {
      EdgesMapKeys(nodes[..|nodes| - 1]);
      SplitLast(nodes);
      GraphOfAppend(nodes[..|nodes| - 1], nodes[|nodes| - 1]);
    }
  }

  lemma EdgesMapAppend(nodes: seq<DataNode>, i: nat)
    requires i < |nodes|
    ensures var g := EdgesMap(nodes[..i]);
            EdgesMap(nodes[..i + 1]) == g[nodes[i].id := Deps(g, nodes[i].id) + nodes[i].dependencies]
  {
    assert nodes[..i + 1][..i] == nodes[..i];
  }

  lemma {:induction false} EdgesMapDistinct(nodes: seq<DataNode>)
    requires DistinctIds(nodes)
    ensures EdgesMap(nodes) == GraphOf(nodes)
  {
    if nodes != [] {
      var rest, last := nodes[..|nodes| - 1], nodes[|nodes| - 1];
      EdgesMapDistinct(rest);
      SplitLast(nodes);
      GraphOfAppend(rest, last);
      assert last.id !in GraphOf(rest);
      assert [] + last.dependencies == last.dependencies;
    }
  }

  /** Repeated ids add up: the upstreams of an id are those of every node that carries it. */
  lemma {:induction false} EdgesMapMembers(nodes: seq<DataNode>, v: NodeId, d: NodeId)
    ensures d in Deps(EdgesMap(nodes), v) <==> exists n :: n in nodes && n.id == v && d in n.dependencies
  {
    if nodes != [] {
      var rest, last := nodes[..|nodes| - 1], nodes[|nodes| - 1];
      SplitLast(nodes);
      EdgesMapMembers(rest, v, d);
      assert forall n :: n in nodes <==> n in rest || n == last;
    }
  }

  ghost predicate Known(nodes: seq<DataNode>, v: NodeId) {
    exists n :: n in nodes && n.id == v
  }

  ghost predicate UpstreamsDone(nodes: seq<DataNode>, statuses: StatusMap, v: NodeId) {
    forall n, d :: n in nodes && n.id == v && d in n.dependencies ==> d in statuses && statuses[d] == COMPLETED
  }

  /** A node that can start: known, waiting, and everything it depends on has run to completion. */
  ghost predicate CanStart(nodes: seq<DataNode>, statuses: StatusMap, v: NodeId) {
    && Known(nodes, v)
    && (v !in statuses || statuses[v] == PENDING || statuses[v] == READY)
    && UpstreamsDone(nodes, statuses, v)
  }

  lemma KnownIds(nodes: seq<DataNode>, v: NodeId)
    ensures v in GraphOf(nodes) <==> Known(nodes, v)
  {
    if v in GraphOf(nodes) {
      assert NodeMap(nodes)[v] in nodes;
    }
  }

  lemma UpstreamsCompleted(nodes: seq<DataNode>, statuses: StatusMap, v: NodeId)
    ensures (forall d :: d in Deps(EdgesMap(nodes), v) ==> IsCompleted(statuses, d)) <==>
            UpstreamsDone(nodes, statuses, v)
  {
    if forall d :: d in Deps(EdgesMap(nodes), v) ==> IsCompleted(statuses, d) {
      forall n, d | n in nodes && n.id == v && d in n.dependencies
        ensures d in statuses && statuses[d] == COMPLETED
      {
        EdgesMapMembers(nodes, v, d);
      }
    }
    if UpstreamsDone(nodes, statuses, v) {
      forall d | d in Deps(EdgesMap(nodes), v)
        ensures IsCompleted(statuses, d)
      {
        EdgesMapMembers(nodes, v, d);
        var n :| n in nodes && n.id == v && d in n.dependencies;
      }
    }
  }

  lemma ReadyCanStart(nodes: seq<DataNode>, statuses: StatusMap, order: seq<NodeId>, v: NodeId)
    requires IsTopoOrder(GraphOf(nodes), order)
    ensures v in ReadyAmong(EdgesMap(nodes), statuses, order) <==> CanStart(nodes, statuses, v)
  {
    ReadyAmongExact(EdgesMap(nodes), statuses, order);
    assert v in order <==> v in GraphOf(nodes);
    KnownIds(nodes, v);
    UpstreamsCompleted(nodes, statuses, v);
  }

  /** The status dictionary shared by the selector and the worker. */
  class StatusBoard {
    var statuses: StatusMap

    constructor ()
      ensures statuses == map[]
    {
      statuses := map[];
    }

    method Update(id: NodeId, status: Status)
      modifies this
      ensures statuses == old(statuses)[id := status]
    {
      statuses := statuses[id := status];
    }
  }

  class ReadyNodeSelector {
    const nodes: seq<DataNode>
    const board: StatusBoard
    const builder: GraphBuilder

    constructor (nodes: seq<DataNode>, board: StatusBoard)
      ensures this.nodes == nodes && this.board == board && builder.nodes == nodes
    {
      this.nodes := nodes;
      this.board := board;
      builder := new GraphBuilder(nodes);
    }

    /** The inner loop of `_reverse_adjacency_list`. */
    method AppendUpstreams(edges0: Graph, id: NodeId, deps: seq<NodeId>) returns (edges: Graph)
      requires id in edges0
      ensures edges == edges0[id := edges0[id] + deps]
    {
      edges := edges0;
      assert edges0[id] + deps[..0] == edges0[id];
      for j := 0 to |deps|
        invariant edges == edges0[id := edges0[id] + deps[..j]]
      {
        TakeOneMore(deps, j);
        assert edges0[id] + deps[..j] + [deps[j]] == edges0[id] + deps[..j + 1];
        edges := edges[id := edges[id] + [deps[j]]];
      }
      assert deps[..|deps|] == deps;
    }

    method ReverseAdjacencyList() returns (edges: Graph)
      ensures edges == EdgesMap(nodes)
    {
      edges := map v | v in Ids(nodes) :: [];
      for i := 0 to |nodes|
        invariant forall v :: v in edges <==> v in Ids(nodes)
        invariant forall v :: v in edges ==> edges[v] == Deps(EdgesMap(nodes[..i]), v)
      {
        assert Ids(nodes)[i] == nodes[i].id;
        EdgesMapAppend(nodes, i);
        edges := AppendUpstreams(edges, nodes[i].id, nodes[i].dependencies);
      }
      assert nodes[..|nodes|] == nodes;
      IdsAreKeys(nodes);
      EdgesMapKeys(nodes);
    }

    method GetReadyNodes() returns (r: Result<seq<DataNode>, SortError>)
      requires builder.nodes == nodes
      ensures r.Ok? <==> Sortable(GraphOf(nodes))
      ensures r.Ok? ==> exists order ::
                && IsTopoOrder(GraphOf(nodes), order)
                && Ids(r.value) == ReadyAmong(EdgesMap(nodes), board.statuses, order)
                && InOrder(Ids(r.value), order)
      ensures r.Ok? ==> forall v :: v in Ids(r.value) <==> CanStart(nodes, board.statuses, v)
      ensures r.Ok? ==> forall n :: n in r.value ==> n.id in NodeMap(nodes) && n == NodeMap(nodes)[n.id]
    {
      var built := builder.BuildDag();
      if built.Err? {
        return Err(built.error);
      }
      var (nodeMap, order) := built.value;
      var edges := ReverseAdjacencyList();
      var ready := [];
      for i := 0 to |order|
        invariant Ids(ready) == ReadyAmong(edges, board.statuses, order[..i])
        invariant forall n :: n in ready ==> n.id in nodeMap && n == nodeMap[n.id]
      {
        TakeOneMore(order, i);
        assert order[..i + 1][..i] == order[..i];
        var id := order[i];
        if IsPending(board.statuses, id) {
          var deps := Deps(edges, id);
          if forall d :: d in deps ==> IsCompleted(board.statuses, d) {
            assert nodeMap[id].id == id;
            assert Ids(ready + [nodeMap[id]]) == Ids(ready) + [id];
            ready := ready + [nodeMap[id]];
          }
        }
      }
      assert order[..|order|] == order;
      ReadyInOrder(edges, board.statuses, order);
      forall v
        ensures v in Ids(ready) <==> CanStart(nodes, board.statuses, v)
      {
        ReadyCanStart(nodes, board.statuses, order, v);
      }
      return Ok(ready);
    }
  }
}
