/**
 Building and sorting a strategy graph with a temporary-mark depth-first search
 (src/qmtl/dag_manager/core/graph_builder.py).
 */
module GraphBuilding {
  import opened Outcomes
  import opened Sequences
  import opened Graphs

  datatype SortError = CycleDetected | MissingNode(id: NodeId)

  /** The variables captured by the nested function `visit`. */
  class Visitor {
    const graph: Graph
    var order: seq<NodeId>
    var visited: set<NodeId>
    var tempMark: set<NodeId>

    constructor (graph: Graph)
      ensures this.graph == graph && order == [] && visited == {} && tempMark == {}
    {
      this.graph := graph;
      order, visited, tempMark := [], {}, {};
    }

    /** `path` lists the marked nodes, each depending on the next one. */
    ghost predicate Valid(path: seq<NodeId>)
      reads this
    {
      && Grounded(graph, order)
      && visited == Elements(order)
      && (forall v :: v in order ==> v in graph)
      && tempMark == Elements(path)
      && tempMark !! visited
      && (path == [] || IsWalk(graph, path))
    }

    method Visit(id: NodeId, ghost path: seq<NodeId>) returns (error: Option<SortError>)
      requires Valid(path)
      requires path == [] ==> id in graph
      requires path != [] ==> id in Deps(graph, path[|path| - 1])
      modifies this
      ensures error.None? ==> Valid(path) && id in order && Within(old(order), order)
      ensures error == Some(CycleDetected) ==> !Acyclic(graph)
      ensures error.Some? && error.value.MissingNode? ==>
                error.value.id !in graph && exists v :: v in graph && error.value.id in graph[v]
      decreases graph.Keys - tempMark
    {
      if id in visited {
        return None;
      }
      if id in tempMark {
        PathClosesCycle(graph, path, id);
        return Some(CycleDetected);
      }
      tempMark := tempMark + {id};
      if id !in graph {
        return Some(MissingNode(id));
      }
      ghost var path' := path + [id];
      ExtendPath(graph, path, id);
      assert Valid(path');
      var deps := graph[id];
      for i := 0 to |deps|
        invariant Valid(path')
        invariant Within(old(order), order) && Within(deps[..i], order)
      {
        ghost var before := order;
        error := Visit(deps[i], path');
        if error.Some? {
          return;
        }
        WithinStep(deps, i, before, order);
      }
      assert deps[..|deps|] == deps;
      ExtendGrounded(graph, order, id);
      tempMark := tempMark - {id};
      visited := visited + {id};
      order := order + [id];
      error := None;
    }
  }

  class GraphBuilder {
    const nodes: seq<DataNode>

    constructor (nodes: seq<DataNode>)
      ensures this.nodes == nodes
    {
      this.nodes := nodes;
    }

    method GetTopologicalSortResult() returns (r: Result<seq<NodeId>, SortError>)
      ensures r.Ok? <==> Sortable(GraphOf(nodes))
      ensures r.Ok? ==> IsTopoOrder(GraphOf(nodes), r.value)
      ensures r == Err(CycleDetected) ==> !Acyclic(GraphOf(nodes))
      ensures r.Err? && r.error.MissingNode? ==>
                r.error.id !in GraphOf(nodes) && exists v :: v in GraphOf(nodes) && r.error.id in GraphOf(nodes)[v]
    {
      var graph := GraphOf(nodes);
      var visitor := new Visitor(graph);
      var ids := Ids(nodes);
      IdsAreKeys(nodes);
      for i := 0 to |ids|
        invariant visitor.graph == graph && visitor.Valid([]) && Within(ids[..i], visitor.order)
      {
        ghost var before := visitor.order;
        var error := visitor.Visit(ids[i], []);
        if error.Some? {
          return Err(error.value);
        }
        WithinStep(ids, i, before, visitor.order);
      }
      assert ids[..|ids|] == ids;
      TopoOrderSortable(graph, visitor.order);
      return Ok(visitor.order);
    }

    method BuildDag() returns (r: Result<(map<NodeId, DataNode>, seq<NodeId>), SortError>)
      ensures r.Ok? <==> Sortable(GraphOf(nodes))
      ensures r.Ok? ==> r.value.0 == NodeMap(nodes) && IsTopoOrder(GraphOf(nodes), r.value.1)
      ensures r == Err(CycleDetected) ==> !Acyclic(GraphOf(nodes))
      ensures r.Err? && r.error.MissingNode? ==> r.error.id !in GraphOf(nodes)
    {
      var nodeMap := NodeMap(nodes);
      var sorted := GetTopologicalSortResult();
      match sorted
      case Ok(order) => r := Ok((nodeMap, order));
      case Err(error) => r := Err(error);
    }
  }

  // ------------------------------------------------------------------- edge list

  datatype Edge = Edge(source: NodeId, target: NodeId)

  function EdgesInto(target: NodeId, dependencies: seq<NodeId>): seq<Edge> {
    seq(|dependencies|, i requires 0 <= i < |dependencies| => Edge(dependencies[i], target))
  }

  function Edges(nodes: seq<DataNode>): seq<Edge> {
    if nodes == [] then []
    else
      var last := nodes[|nodes| - 1];
      Edges(nodes[..|nodes| - 1]) + EdgesInto(last.id, last.dependencies)
  }

  method DeriveEdges(nodes: seq<DataNode>) returns (edges: seq<Edge>)
    ensures edges == Edges(nodes)
  {
    edges := [];
    for i := 0 to |nodes|
      invariant edges == Edges(nodes[..i])
    {
      var deps := nodes[i].dependencies;
      ghost var before := edges;
      for j := 0 to |deps|
        invariant edges == before + EdgesInto(nodes[i].id, deps)[..j]
      {
        edges := edges + [Edge(deps[j], nodes[i].id)];
      }
      assert nodes[..i + 1][..i] == nodes[..i];
    }
    assert nodes[..|nodes|] == nodes;
  }

  /** The edges stand in node order, and those into one node in the order of its dependency list. */
  lemma {:induction false} EdgeAt(nodes: seq<DataNode>, i: nat, j: nat)
    requires i < |nodes| && j < |nodes[i].dependencies|
    ensures |Edges(nodes[..i + 1])| == |Edges(nodes[..i])| + |nodes[i].dependencies|
    ensures |Edges(nodes[..i])| + j < |Edges(nodes)|
    ensures Edges(nodes)[|Edges(nodes[..i])| + j] == Edge(nodes[i].dependencies[j], nodes[i].id)
  {
    assert nodes[..i + 1][..i] == nodes[..i];
    if i < |nodes| - 1 {
      var rest := nodes[..|nodes| - 1];
      assert rest[..i] == nodes[..i] && rest[..i + 1] == nodes[..i + 1];
      EdgeAt(rest, i, j);
    } else {
      assert nodes[..i + 1] == nodes;
    }
  }

  lemma {:induction false} MultiplicityInto(target: NodeId, deps: seq<NodeId>, e: Edge)
    ensures multiset(EdgesInto(target, deps))[e] == if e.target == target then multiset(deps)[e.source] else 0
  {
    if deps != [] {
      var rest := deps[..|deps| - 1];
      MultiplicityInto(target, rest, e);
      assert deps == rest + [deps[|deps| - 1]];
      assert EdgesInto(target, deps) == EdgesInto(target, rest) + [Edge(deps[|deps| - 1], target)];
    }
  }

  lemma {:induction false} NoEdgesElsewhere(nodes: seq<DataNode>, e: Edge)
    requires forall n :: n in nodes ==> n.id != e.target
    ensures multiset(Edges(nodes))[e] == 0
  {
    if nodes != [] {
      var last := nodes[|nodes| - 1];
      assert last in nodes;
      NoEdgesElsewhere(nodes[..|nodes| - 1], e);
      MultiplicityInto(last.id, last.dependencies, e);
    }
  }

  /** With distinct ids, an edge occurs exactly as often as the target lists the source. */
  lemma {:induction false} EdgeMultiplicity(nodes: seq<DataNode>, e: Edge)
    requires DistinctIds(nodes)
    ensures multiset(Edges(nodes))[e] == multiset(Deps(GraphOf(nodes), e.target))[e.source]
  {
    if nodes != [] {
      var last := nodes[|nodes| - 1];
      var rest := nodes[..|nodes| - 1];
      MultiplicityInto(last.id, last.dependencies, e);
      if e.target == last.id {
        NoEdgesElsewhere(rest, e);
      } else {
        EdgeMultiplicity(rest, e);
      }
    }
  }
}
