/**
 A strategy pipeline and its execution order: a three-colour depth-first search
 whose result is cached until a node is added (src/qmtl/sdk/pipeline.py:16-259).
 */
module Pipelines {
  import opened Outcomes
  import opened Sequences
  import opened Graphs

  /** A node result; the engine never looks inside. */
  datatype Value = Value(text: string)

  /** The settings of one interval: an object with a cap, or a plain dictionary. */
  datatype HistorySetting =
    | ObjectSetting(maxHistory: int)
    | DictSetting(cap: Option<int>, ttl: Option<int>)

  /** A node computes its value from the values of its upstreams. */
  datatype PipelineNode = PipelineNode(name: NodeId, upstreams: seq<NodeId>,
                                       fn: map<NodeId, Value> -> Value,
                                       intervals: map<string, HistorySetting>)

  function UpstreamGraph(nodes: map<NodeId, PipelineNode>): Graph {
    map v | v in nodes :: nodes[v].upstreams
  }

  datatype PipelineError =
    | DuplicateName(name: NodeId)
    | UnknownUpstream(name: NodeId, upstream: NodeId)
    | CircularDependency(name: NodeId)

  /** 0: not visited, 1: on the current path, 2: finished. */
  type Colour = n: nat | n <= 2

  /** The variables captured by the nested function `dfs`. */
  class ColourSearch {
    const graph: Graph
    var visited: map<NodeId, Colour>
    var result: seq<NodeId>

    constructor (graph: Graph)
      ensures this.graph == graph && visited.Keys == graph.Keys && result == []
      ensures forall v :: v in visited ==> visited[v] == 0
    {
      this.graph := graph;
      visited := map v | v in graph :: 0;
      result := [];
    }

    ghost predicate Valid(path: seq<NodeId>)
      reads this
    {
      && visited.Keys == graph.Keys
      && Grounded(graph, result)
      && (forall v :: v in result <==> v in visited && visited[v] == 2)
      && (forall v :: v in path <==> v in visited && visited[v] == 1)
      && (path == [] || IsWalk(graph, path))
    }

    /** Upstreams are visited in whatever order the set of them is iterated. */
    method Visit(node: NodeId, ghost path: seq<NodeId>) returns (cycle: Option<NodeId>)
      requires Valid(path) && Closed(graph) && node in graph
      requires path != [] ==> node in Deps(graph, path[|path| - 1])
      modifies this
      ensures cycle.None? ==> Valid(path) && node in result && Within(old(result), result)
      ensures cycle.Some? ==> OnCycle(graph, cycle.value)
      decreases graph.Keys - Elements(path)
    {
      if visited[node] == 2 {
        return None;
      }
      if visited[node] == 1 {
        PathClosesCycle(graph, path, node);
        return Some(node);
      }
      ExtendPath(graph, path, node);
      visited := visited[node := 1];
      var rest := Elements(graph[node]);
      while rest != {}
        invariant Valid(path + [node]) && Within(old(result), result)
        invariant rest <= Elements(graph[node])
        invariant forall d :: d in graph[node] ==> d in rest || d in result
        decreases rest
      {
        var upstream :| upstream in rest;
        ghost var before := result;
        cycle := Visit(upstream, path + [node]);
        if cycle.Some? {
          return;
        }
        rest := rest - {upstream};
      }
      ExtendGrounded(graph, result, node);
      visited := visited[node := 2];
      result := result + [node];
      cycle := None;
    }
  }

  class Pipeline {
    var nodes: map<NodeId, PipelineNode>
    var names: seq<NodeId>             // the insertion order of `nodes`
    var executionOrder: seq<NodeId>    // the cached order; empty when it must be recomputed

    ghost predicate Valid()
      reads this
    {
      && Distinct(names) && (forall v :: v in names <==> v in nodes)
      && (forall v :: v in nodes ==> nodes[v].name == v)
      && (executionOrder == [] || IsTopoOrder(UpstreamGraph(nodes), executionOrder))
    }

    constructor ()
      ensures Valid() && nodes == map[] && executionOrder == []
    {
      nodes, names, executionOrder := map[], [], [];
    }

    /** Rejects a second node of the same name; otherwise the cached order is dropped. */
    method AddNode(node: PipelineNode) returns (error: Option<PipelineError>)
      requires Valid()
      modifies this
      ensures Valid()
      ensures error.Some? <==> node.name in old(nodes)
      ensures error.Some? ==> nodes == old(nodes) && names == old(names) && executionOrder == old(executionOrder)
      ensures error.None? ==>
                nodes == old(nodes)[node.name := node] && names == old(names) + [node.name] && executionOrder == []
    {
      if node.name in nodes {
        return Some(DuplicateName(node.name));
      }
      nodes := nodes[node.name := node];
      names := names + [node.name];
      executionOrder := [];
      return None;
    }

    method ValidateDependencies() returns (error: Option<PipelineError>)
      requires Valid()
      ensures error.None? <==> Closed(UpstreamGraph(nodes))
      ensures error.Some? ==>
                && error.value.UnknownUpstream? && error.value.name in nodes
                && error.value.upstream in nodes[error.value.name].upstreams && error.value.upstream !in nodes
    {
      var g := UpstreamGraph(nodes);
      for i := 0 to |names|
        invariant forall k, d :: 0 <= k < i && d in g[names[k]] ==> d in g
      {
        var upstreams := nodes[names[i]].upstreams;
        for j := 0 to |upstreams|
          invariant forall k :: 0 <= k < j ==> upstreams[k] in g
        {
          if upstreams[j] !in nodes {
            assert names[i] in g && upstreams[j] in g[names[i]];
            assert !Closed(g);
            return Some(UnknownUpstream(names[i], upstreams[j]));
          }
        }
      }
      return None;
    }

    method TopologicalSort() returns (r: Result<seq<NodeId>, PipelineError>)
      requires Valid()
      ensures r.Ok? <==> Sortable(UpstreamGraph(nodes))
      ensures r.Ok? ==> IsTopoOrder(UpstreamGraph(nodes), r.value)
      ensures r.Err? && r.error.UnknownUpstream? <==> !Closed(UpstreamGraph(nodes))
      ensures r.Err? && r.error.CircularDependency? <==>
              Closed(UpstreamGraph(nodes)) && !Acyclic(UpstreamGraph(nodes))
      ensures r.Err? && r.error.CircularDependency? ==> OnCycle(UpstreamGraph(nodes), r.error.name)
    {
      var missing := ValidateDependencies();
      if missing.Some? {
        return Err(missing.value);
      }
      var graph := UpstreamGraph(nodes);
      var search := new ColourSearch(graph);
      for i := 0 to |names|
        invariant search.graph == graph && search.Valid([])
        invariant Within(names[..i], search.result)
      {
        ghost var before := search.result;
        if search.visited[names[i]] == 0 {
          var cycle := search.Visit(names[i], []);
          if cycle.Some? {
            return Err(CircularDependency(cycle.value));
          }
        }
        WithinStep(names, i, before, search.result);
      }
      assert names[..|names|] == names;
      TopoOrderSortable(graph, search.result);
      return Ok(search.result);
    }

    method GetExecutionOrder() returns (r: Result<seq<NodeId>, PipelineError>)
      requires Valid()
      modifies this`executionOrder
      ensures Valid()
      ensures r.Ok? <==> Sortable(UpstreamGraph(nodes))
      ensures r.Ok? ==> IsTopoOrder(UpstreamGraph(nodes), r.value) && executionOrder == r.value
      ensures old(executionOrder) != [] ==> r == Ok(old(executionOrder))
      ensures r.Err? ==> executionOrder == old(executionOrder)
    {
      if executionOrder == [] {
        var sorted := TopologicalSort();
        if sorted.Err? {
          return sorted;
        }
        executionOrder := sorted.value;
      } else {
        TopoOrderSortable(UpstreamGraph(nodes), executionOrder);
      }
      return Ok(executionOrder);
    }
  }
}
