/**
 The repository sorts the same graphs in three independent ways; they accept the
 same inputs and all results respect the dependencies.
 */
module SortAgreement {
  import opened Outcomes
  import opened Sequences
  import opened Graphs
  import opened Levels
  import GraphBuilding
  import DagServices
  import opened Pipelines

  /** The nodes as a strategy pipeline would register them. */
  function AsPipelineNode(node: DataNode): PipelineNode {
    PipelineNode(node.id, node.dependencies, (inputs: map<NodeId, Value>) => Value(""), map[])
  }

  lemma UpstreamGraphAppend(nodes: map<NodeId, PipelineNode>, node: DataNode)
    ensures UpstreamGraph(nodes[node.id := AsPipelineNode(node)]) == UpstreamGraph(nodes)[node.id := node.dependencies]
  {
  }

  lemma RegisterStep(nodes: seq<DataNode>, i: nat, registered: map<NodeId, PipelineNode>)
    requires DistinctIds(nodes) && i < |nodes| && UpstreamGraph(registered) == GraphOf(nodes[..i])
    ensures nodes[i].id !in registered
    ensures UpstreamGraph(registered[nodes[i].id := AsPipelineNode(nodes[i])]) == GraphOf(nodes[..i + 1])
  {
    FreshId(nodes, i);
    TakeOneMore(nodes, i);
    assert registered.Keys == UpstreamGraph(registered).Keys;
    UpstreamGraphAppend(registered, nodes[i]);
    GraphOfAppend(nodes[..i], nodes[i]);
  }

  method Register(nodes: seq<DataNode>) returns (pipeline: Pipeline)
    requires DistinctIds(nodes)
    ensures pipeline.Valid() && UpstreamGraph(pipeline.nodes) == GraphOf(nodes)
  {
    pipeline := new Pipeline();
    for i := 0 to |nodes|
      invariant fresh(pipeline) && pipeline.Valid()
      invariant UpstreamGraph(pipeline.nodes) == GraphOf(nodes[..i])
    {
      RegisterStep(nodes, i, pipeline.nodes);
      var error := pipeline.AddNode(AsPipelineNode(nodes[i]));
    }
    assert nodes[..|nodes|] == nodes;
  }

  /**
   On nodes with distinct ids, `GraphBuilder` and `Pipeline` accept exactly the acyclic graphs whose
   dependencies are all registered, and so does `DAGService`, whose build step looks at cycles only.
   Every accepted order is a permutation of the ids with dependencies first.
   */
  method SortThreeWays(nodes: seq<DataNode>)
    returns (built: Result<seq<NodeId>, GraphBuilding.SortError>,
             served: Result<seq<NodeId>, DagServices.OrderError>,
             piped: Result<seq<NodeId>, PipelineError>)
    requires DistinctIds(nodes)
    ensures built.Ok? <==> Sortable(GraphOf(nodes))
    ensures served.Ok? == built.Ok? && piped.Ok? == built.Ok?
    ensures built.Ok? ==>
              && IsTopoOrder(GraphOf(nodes), built.value)
              && IsTopoOrder(GraphOf(nodes), served.value)
              && IsTopoOrder(GraphOf(nodes), piped.value)
              && LevelSorted(GraphOf(nodes), served.value)
              && multiset(built.value) == multiset(served.value) == multiset(piped.value)
  {
    var builder := new GraphBuilding.GraphBuilder(nodes);
    built := builder.GetTopologicalSortResult();

    var service := new DagServices.DAGService();
    var check := service.BuildDag(nodes);
    served := service.GetTopologicalOrder();

    var pipeline := Register(nodes);
    piped := pipeline.TopologicalSort();
    if built.Ok? {
      SameElements(built.value, served.value);
      SameElements(built.value, piped.value);
    }
  }

  lemma FreshId(nodes: seq<DataNode>, i: nat)
    requires DistinctIds(nodes) && i < |nodes|
    ensures nodes[i].id !in GraphOf(nodes[..i])
  {
  }

  lemma {:induction false} SameElements<T>(a: seq<T>, b: seq<T>)
    requires Distinct(a) && Distinct(b) && forall x :: x in a <==> x in b
    ensures multiset(a) == multiset(b)
  {
    forall x: T | x in a || x in b
      ensures multiset(a)[x] == multiset(b)[x]
    {
      OccursOnce(a, x);
      OccursOnce(b, x);
    }
  }

  lemma {:induction false} OccursOnce<T>(s: seq<T>, x: T)
    requires Distinct(s)
    ensures multiset(s)[x] == if x in s then 1 else 0
  {
    if s != [] {
      SplitLast(s);
      OccursOnce(s[..|s| - 1], x);
    }
  }
}
