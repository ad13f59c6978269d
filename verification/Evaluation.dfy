/**
 The meaning of a pipeline: the value of a node is its function applied to the values of
 its upstreams, recursively.
 */
module Evaluation {
  import opened Outcomes
  import opened Graphs
  import opened Levels
  import opened Pipelines

  type Nodes = map<NodeId, PipelineNode>

  predicate IsSource(nodes: Nodes, v: NodeId) {
    v in nodes && nodes[v].upstreams == []
  }

  predicate IsProcessing(nodes: Nodes, v: NodeId) {
    v in nodes && nodes[v].upstreams != []
  }

  lemma {:induction false} UpstreamsBelow(nodes: Nodes, v: NodeId)
    requires Sortable(UpstreamGraph(nodes)) && v in nodes
    ensures forall u :: u in nodes[v].upstreams ==>
              u in nodes && Level(UpstreamGraph(nodes), u) < Level(UpstreamGraph(nodes), v)
  {
    DependenciesBelow(UpstreamGraph(nodes), v);
  }

  /** The value of `v` when the sources have the values in `given`; none if a source it needs has no value. */
  ghost function Eval(nodes: Nodes, given: map<NodeId, Value>, v: NodeId): Option<Value>
    requires Sortable(UpstreamGraph(nodes)) && v in nodes
    decreases Level(UpstreamGraph(nodes), v)
  {
    UpstreamsBelow(nodes, v);
    if nodes[v].upstreams == [] then
      if v in given then Some(given[v]) else None
    else if exists u :: u in nodes[v].upstreams && Eval(nodes, given, u).None? then
      None
    else
      Some(nodes[v].fn(map u | u in nodes[v].upstreams :: Eval(nodes, given, u).value))
  }

  /** A node has no value exactly when it is, or transitively needs, a source that is not given. */
  lemma {:induction false} NoValueIffSourceMissing(nodes: Nodes, given: map<NodeId, Value>, v: NodeId)
    requires Sortable(UpstreamGraph(nodes)) && v in nodes
    ensures Eval(nodes, given, v).None? <==>
            exists s :: IsSource(nodes, s) && s !in given && (s == v || Ancestor(UpstreamGraph(nodes), s, v))
    decreases Level(UpstreamGraph(nodes), v)
  {
    var g := UpstreamGraph(nodes);
    UpstreamsBelow(nodes, v);
    if nodes[v].upstreams == [] {
      SourceHasNoAncestor(g, v);
    } else {
      if u :| u in nodes[v].upstreams && Eval(nodes, given, u).None? {
        NoValueIffSourceMissing(nodes, given, u);
        var s :| IsSource(nodes, s) && s !in given && (s == u || Ancestor(g, s, u));
        AncestorThrough(g, s, u, v);
      }
      if s :| IsSource(nodes, s) && s !in given && Ancestor(g, s, v) {
        var u := AncestorSplit(g, s, v);
        NoValueIffSourceMissing(nodes, given, u);
      }
    }
  }

  lemma SourceHasNoAncestor(g: Graph, v: NodeId)
    requires Deps(g, v) == []
    ensures forall a :: !Ancestor(g, a, v)
  {
    forall p | WalkFrom(g, v, p)
      ensures |p| < 2
    {
      if |p| > 1 {
        FirstStep(g, p);
      }
    }
  }

  lemma AncestorThrough(g: Graph, a: NodeId, u: NodeId, v: NodeId)
    requires u in Deps(g, v) && (a == u || Ancestor(g, a, u))
    ensures Ancestor(g, a, v)
  {
    if a == u {
      assert WalkFrom(g, v, [v, u]) && [v, u][1] == a;
    } else {
      var p :| WalkFrom(g, u, p) && |p| >= 2 && p[|p| - 1] == a;
      PrependWalk(g, v, p);
      assert ([v] + p)[|p|] == a;
    }
  }

  lemma AncestorSplit(g: Graph, a: NodeId, v: NodeId) returns (u: NodeId)
    requires Ancestor(g, a, v)
    ensures u in Deps(g, v) && (a == u || Ancestor(g, a, u))
  {
    var p :| WalkFrom(g, v, p) && |p| >= 2 && p[|p| - 1] == a;
    FirstStep(g, p);
    u := p[1];
    if |p| > 2 {
      SliceOfWalk(g, p, 1, |p|);
      assert WalkFrom(g, u, p[1..]) && p[1..][|p| - 2] == a;
    }
  }

  /** The values the sources take: computed by themselves, or taken from the inputs when there are inputs. */
  function Given(nodes: Nodes, inputs: Option<map<NodeId, Value>>): map<NodeId, Value> {
    match inputs
    case None => map v | v in nodes && IsSource(nodes, v) :: nodes[v].fn(map[])
    case Some(values) => map v | v in values && IsSource(nodes, v) :: values[v]
  }

  /** Without inputs every node has a value. */
  lemma {:induction false} NoInputsAlwaysValue(nodes: Nodes, v: NodeId)
    requires Sortable(UpstreamGraph(nodes)) && v in nodes
    ensures Eval(nodes, Given(nodes, None), v).Some?
  {
    NoValueIffSourceMissing(nodes, Given(nodes, None), v);
  }

  /** Input values for processing nodes have no influence on any node's value. */
  lemma {:induction false} ProcessingInputsIgnored(nodes: Nodes, a: map<NodeId, Value>, b: map<NodeId, Value>,
                                                   v: NodeId)
    requires Sortable(UpstreamGraph(nodes)) && v in nodes
    requires forall s :: IsSource(nodes, s) ==> (s in a <==> s in b) && (s in a ==> a[s] == b[s])
    ensures Eval(nodes, Given(nodes, Some(a)), v) == Eval(nodes, Given(nodes, Some(b)), v)
  {
    assert Given(nodes, Some(a)) == Given(nodes, Some(b));
  }
}
