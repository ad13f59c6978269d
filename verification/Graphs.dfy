/**
 Dependency graphs as the sorts of the repository see them: a finite map from a
 registered node to the list of ids it depends on.  A list may repeat an id and
 may name an id that is not registered.
 */
module Graphs {
  import opened Sequences

  datatype NodeId = NodeId(text: string)

  datatype DataNode = DataNode(id: NodeId, dependencies: seq<NodeId>)

  type Graph = map<NodeId, seq<NodeId>>

  /** The dependencies of `v`; an unregistered id has none. */
  function Deps(g: Graph, v: NodeId): seq<NodeId> {
    if v in g then g[v] else []
  }

  /** The dictionary from id to node; of several nodes with one id the last wins. */
  function NodeMap(nodes: seq<DataNode>): (m: map<NodeId, DataNode>)
    ensures forall v :: v in m ==> m[v] in nodes && m[v].id == v
    ensures forall n :: n in nodes ==> n.id in m
  {
    if nodes == [] then map[]
    else
      var last := nodes[|nodes| - 1];
      assert nodes == nodes[..|nodes| - 1] + [last];
      NodeMap(nodes[..|nodes| - 1])[last.id := last]
  }

  lemma {:induction false} LastNodeWins(nodes: seq<DataNode>, i: nat)
    requires i < |nodes| && forall j :: i < j < |nodes| ==> nodes[j].id != nodes[i].id
    ensures nodes[i].id in NodeMap(nodes) && NodeMap(nodes)[nodes[i].id] == nodes[i]
  {
    if i < |nodes| - 1 {
      LastNodeWins(nodes[..|nodes| - 1], i);
    }
  }

  function Ids(nodes: seq<DataNode>): seq<NodeId> {
    seq(|nodes|, i requires 0 <= i < |nodes| => nodes[i].id)
  }

  lemma IdsAreKeys(nodes: seq<DataNode>)
    ensures forall v :: v in Ids(nodes) <==> v in GraphOf(nodes)
  {
    forall v | v in GraphOf(nodes)
      ensures v in Ids(nodes)
    {
      var i :| 0 <= i < |nodes| && nodes[i] == NodeMap(nodes)[v];
      assert Ids(nodes)[i] == v;
    }
    forall v | v in Ids(nodes)
      ensures v in GraphOf(nodes)
    {
      var i :| 0 <= i < |nodes| && Ids(nodes)[i] == v;
      assert nodes[i] in nodes;
    }
  }

  function GraphOf(nodes: seq<DataNode>): (g: Graph)
    ensures g.Keys == NodeMap(nodes).Keys
  {
    var m := NodeMap(nodes);
    map v | v in m :: m[v].dependencies
  }

  lemma GraphOfAppend(nodes: seq<DataNode>, last: DataNode)
    ensures GraphOf(nodes + [last]) == GraphOf(nodes)[last.id := last.dependencies]
  {
    assert (nodes + [last])[..|nodes|] == nodes;
  }

  ghost predicate DistinctIds(nodes: seq<DataNode>) {
    forall i, j :: 0 <= i < j < |nodes| ==> nodes[i].id != nodes[j].id
  }

  // ----------------------------------------------------------- walks and cycles

  /** Each node of `p` depends on the next one. */
  ghost predicate IsWalk(g: Graph, p: seq<NodeId>) {
    |p| > 0 && forall i :: 0 <= i < |p| - 1 ==> p[i + 1] in Deps(g, p[i])
  }

  ghost predicate WalkFrom(g: Graph, v: NodeId, p: seq<NodeId>) {
    IsWalk(g, p) && p[0] == v
  }

  ghost predicate ClosedWalk(g: Graph, p: seq<NodeId>) {
    IsWalk(g, p) && |p| >= 2 && p[0] == p[|p| - 1]
  }

  ghost predicate Acyclic(g: Graph) {
    forall p :: !ClosedWalk(g, p)
  }

  /** Every dependency is registered. */
  ghost predicate Closed(g: Graph) {
    forall v, d :: v in g && d in g[v] ==> d in g
  }

  ghost predicate Sortable(g: Graph) {
    Acyclic(g) && Closed(g)
  }

  ghost predicate OnCycle(g: Graph, v: NodeId) {
    exists c :: ClosedWalk(g, c) && c[0] == v
  }

  /** `v` transitively depends on a cycle or on an unregistered id. */
  ghost predicate Blocked(g: Graph, v: NodeId) {
    exists p :: WalkFrom(g, v, p) && (p[|p| - 1] !in g || OnCycle(g, p[|p| - 1]))
  }

  /** `a` is a proper ancestor of `v`: some chain of dependencies leads from `v` to `a`. */
  ghost predicate Ancestor(g: Graph, a: NodeId, v: NodeId) {
    exists p :: WalkFrom(g, v, p) && |p| >= 2 && p[|p| - 1] == a
  }

  lemma FirstStep(g: Graph, p: seq<NodeId>)
    requires IsWalk(g, p) && |p| > 1
    ensures p[1] in Deps(g, p[0])
  {
    assert p[0 + 1] in Deps(g, p[0]);
  }

  lemma JoinWalks(g: Graph, p: seq<NodeId>, q: seq<NodeId>)
    requires IsWalk(g, p) && IsWalk(g, q) && q[0] in Deps(g, p[|p| - 1])
    ensures IsWalk(g, p + q)
  {
    var r := p + q;
    forall i | 0 <= i < |r| - 1
      ensures r[i + 1] in Deps(g, r[i])
    {
      if i >= |p| {
        assert q[i - |p| + 1] in Deps(g, q[i - |p|]);
      }
    }
  }

  lemma SliceOfWalk(g: Graph, p: seq<NodeId>, i: nat, j: nat)
    requires IsWalk(g, p) && i < j <= |p|
    ensures IsWalk(g, p[i..j])
  {
    var r := p[i..j];
    forall k | 0 <= k < |r| - 1
      ensures r[k + 1] in Deps(g, r[k])
    {
      assert p[i + k + 1] in Deps(g, p[i + k]);
    }
  }

  /** The walks of an acyclic graph do not repeat a node. */
  lemma AcyclicWalkDistinct(g: Graph, p: seq<NodeId>)
    requires Acyclic(g) && IsWalk(g, p)
    ensures Distinct(p)
  {
    if i, j :| 0 <= i < j < |p| && p[i] == p[j] {
      SliceOfWalk(g, p, i, j + 1);
      assert ClosedWalk(g, p[i..j + 1]);
    }
  }

  // ------------------------------------------------------------ dependency orders

  /** No repeats, and every dependency of an element occurs before it. */
  ghost predicate Grounded(g: Graph, order: seq<NodeId>) {
    Distinct(order)
    && forall i, d :: 0 <= i < |order| && d in Deps(g, order[i]) ==> d in order[..i]
  }

  /** A permutation of the registered nodes with every dependency before its dependent. */
  ghost predicate IsTopoOrder(g: Graph, order: seq<NodeId>) {
    Grounded(g, order) && forall v :: v in order <==> v in g
  }

  lemma ExtendGrounded(g: Graph, order: seq<NodeId>, v: NodeId)
    requires Grounded(g, order) && v !in order
    requires forall d :: d in Deps(g, v) ==> d in order
    ensures Grounded(g, order + [v])
  {
    var s := order + [v];
    forall i, d | 0 <= i < |s| && d in Deps(g, s[i])
      ensures d in s[..i]
    {
      if i < |order| {
        assert s[..i] == order[..i];
      } else {
        assert s[..i] == order;
      }
    }
  }

  /** Following dependencies from an element of a grounded order moves to earlier positions. */
  lemma {:induction false} WalkDescends(g: Graph, order: seq<NodeId>, i: nat, p: seq<NodeId>)
    requires Grounded(g, order) && i < |order|
    requires WalkFrom(g, order[i], p) && |p| >= 2
    ensures p[|p| - 1] in order[..i]
    decreases i
  {
    FirstStep(g, p);
    assert p[1] in order[..i];
    var j :| 0 <= j < i && order[j] == p[1];
    if |p| > 2 {
      SliceOfWalk(g, p, 1, |p|);
      WalkDescends(g, order, j, p[1..]);
    }
  }

  lemma GroundedOffCycle(g: Graph, order: seq<NodeId>, v: NodeId)
    requires Grounded(g, order) && v in order
    ensures !OnCycle(g, v)
  {
    if c :| ClosedWalk(g, c) && c[0] == v {
      var i :| 0 <= i < |order| && order[i] == v;
      WalkDescends(g, order, i, c);
    }
  }

  lemma GroundedAcyclic(g: Graph, order: seq<NodeId>)
    requires Grounded(g, order) && forall v :: v in g && g[v] != [] ==> v in order
    ensures Acyclic(g)
  {
    forall p | ClosedWalk(g, p)
      ensures false
    {
      FirstStep(g, p);
      assert p[0] in order;
      assert OnCycle(g, p[0]);
      GroundedOffCycle(g, order, p[0]);
    }
  }

  /** Only acyclic graphs without missing ids have a topological order. */
  lemma TopoOrderSortable(g: Graph, order: seq<NodeId>)
    requires IsTopoOrder(g, order)
    ensures Sortable(g) && |order| == |g|
  {
    GroundedAcyclic(g, order);
    forall v, d | v in g && d in g[v]
      ensures d in g
    {
      var i :| 0 <= i < |order| && order[i] == v;
      assert d in Deps(g, order[i]);
      assert d in order[..i];
    }
    CoversByLength(order, g.Keys);
  }

  /** Descending into a dependency of the last node of the current path extends the path. */
  lemma ExtendPath(g: Graph, path: seq<NodeId>, v: NodeId)
    requires path == [] || (IsWalk(g, path) && v in Deps(g, path[|path| - 1]))
    ensures IsWalk(g, path + [v])
    ensures Elements(path + [v]) == Elements(path) + {v}
  {
    assert IsWalk(g, [v]);
    if path != [] {
      JoinWalks(g, path, [v]);
    }
  }

  /** A node met again below itself closes a cycle. */
  lemma PathClosesCycle(g: Graph, path: seq<NodeId>, v: NodeId)
    requires IsWalk(g, path) && v in path && v in Deps(g, path[|path| - 1])
    ensures OnCycle(g, v) && !Acyclic(g)
  {
    var i :| 0 <= i < |path| && path[i] == v;
    SliceOfWalk(g, path, i, |path|);
    assert IsWalk(g, [v]);
    JoinWalks(g, path[i..], [v]);
    assert ClosedWalk(g, path[i..] + [v]);
  }

  /** Nothing in a grounded order of registered nodes is blocked. */
  lemma GroundedNotBlocked(g: Graph, order: seq<NodeId>, v: NodeId)
    requires Grounded(g, order) && v in order
    requires forall x :: x in order ==> x in g
    ensures !Blocked(g, v)
  {
    if p :| WalkFrom(g, v, p) && (p[|p| - 1] !in g || OnCycle(g, p[|p| - 1])) {
      var i :| 0 <= i < |order| && order[i] == v;
      if |p| >= 2 {
        WalkDescends(g, order, i, p);
      }
      assert p[|p| - 1] in order;
      GroundedOffCycle(g, order, p[|p| - 1]);
    }
  }

  /** A walk of stuck nodes can be continued until it leaves the graph or repeats a node. */
  lemma {:induction false} StuckWalk(g: Graph, stuck: set<NodeId>, p: seq<NodeId>)
    requires stuck <= g.Keys
    requires forall v :: v in stuck ==> exists d :: d in g[v] && (d in stuck || d !in g)
    requires IsWalk(g, p) && Distinct(p) && forall v :: v in p ==> v in stuck
    ensures Blocked(g, p[0])
    decreases |stuck| - |p|
  {
    var last := p[|p| - 1];
    assert last in stuck;
    var d :| d in g[last] && (d in stuck || d !in g);
    assert IsWalk(g, [d]);
    JoinWalks(g, p, [d]);
    var q := p + [d];
    assert WalkFrom(g, p[0], q) && q[|q| - 1] == d;
    if d in g {
      if d in p {
        var i :| 0 <= i < |p| && p[i] == d;
        SliceOfWalk(g, q, i, |q|);
        assert ClosedWalk(g, q[i..]) && q[i..][0] == d;
      } else {
        CoversByLength(p, stuck);
        StuckWalk(g, stuck, q);
      }
    }
  }

  lemma StuckIsBlocked(g: Graph, stuck: set<NodeId>, v: NodeId)
    requires stuck <= g.Keys && v in stuck
    requires forall v :: v in stuck ==> exists d :: d in g[v] && (d in stuck || d !in g)
    ensures Blocked(g, v)
  {
    StuckWalk(g, stuck, [v]);
  }

  /** Without cycles and missing ids nothing is blocked, and conversely. */
  lemma SortableIffUnblocked(g: Graph)
    ensures Sortable(g) <==> forall v :: v in g ==> !Blocked(g, v)
  {
    if Sortable(g) {
      forall v, p | v in g && WalkFrom(g, v, p)
        ensures p[|p| - 1] in g && !OnCycle(g, p[|p| - 1])
      {
        if |p| >= 2 {
          assert p[|p| - 2 + 1] in Deps(g, p[|p| - 2]);
        }
      }
    } else if !Acyclic(g) {
      var c :| ClosedWalk(g, c);
      FirstStep(g, c);
      assert WalkFrom(g, c[0], [c[0]]) && [c[0]][|[c[0]]| - 1] == c[0];
      assert OnCycle(g, c[0]);
      assert Blocked(g, c[0]);
    } else {
      var v, d :| v in g && d in g[v] && d !in g;
      assert WalkFrom(g, v, [v, d]) && [v, d][|[v, d]| - 1] == d;
      assert Blocked(g, v);
    }
  }
}
