/**
 What a repeated id can do to the DAG service: `add_node` without dependencies resets the
 recorded list but not the backlinks (src/qmtl/dag_manager/strategy/dag_service.py:29-39).
 */
module RepeatedIds {
  import opened Outcomes
  import opened Graphs
  import opened Kahn
  import opened DagServices

  /** `n` comes with a dependency, again without any, and again with another one. */
  function ReaddedNode(n: NodeId, x: NodeId, y: NodeId): seq<DataNode> {
    [DataNode(n, [x]), DataNode(n, []), DataNode(n, [y]), DataNode(x, []), DataNode(y, [x])]
  }

  lemma BuildOneMore(nodes: seq<DataNode>, node: DataNode)
    ensures RecordAll(nodes + [node]) == Record(RecordAll(nodes), node)
    ensures LinkAll(nodes + [node]) == Linked(LinkAll(nodes), node)
  {
    assert (nodes + [node])[..|nodes|] == nodes;
  }

  lemma OrderOneMore(nodes: seq<DataNode>, node: DataNode)
    ensures InsertionOrder(nodes + [node]) ==
            var ids := InsertionOrder(nodes); if node.id in ids then ids else ids + [node.id]
  {
    assert (nodes + [node])[..|nodes|] == nodes;
  }

  lemma LinkedOnce(adjacency: Graph, id: NodeId, d: NodeId)
    ensures Linked(adjacency, DataNode(id, [d])) ==
            var r := adjacency[d := Deps(adjacency, d) + [id]]; if id in r then r else r[id := []]
  {
    assert [d][..0] == [];
    assert Backlinked(adjacency, id, [d]) == Appended(Backlinked(adjacency, id, []), d, [id]);
  }

  lemma FirstLink(n: NodeId, x: NodeId)
    requires n != x
    ensures Linked(map[], DataNode(n, [x])) == map[n := [], x := [n]]
  {
    LinkedOnce(map[], n, x);
    assert [] + [n] == [n];
  }

  lemma ThirdLink(n: NodeId, x: NodeId, y: NodeId)
    requires n != x && n != y && x != y
    ensures Linked(map[n := [], x := [n]], DataNode(n, [y])) == map[n := [], x := [n], y := [n]]
  {
    LinkedOnce(map[n := [], x := [n]], n, y);
    assert [] + [n] == [n];
  }

  lemma LastLink(n: NodeId, x: NodeId, y: NodeId)
    requires n != x && n != y && x != y
    ensures Linked(map[n := [], x := [n], y := [n]], DataNode(y, [x])) == map[n := [], x := [n, y], y := [n]]
  {
    LinkedOnce(map[n := [], x := [n], y := [n]], y, x);
    assert [n] + [y] == [n, y];
  }

  lemma Literals<T>(a: T, b: T, c: T, d: T, e: T)
    ensures [] + [a] == [a] && [a] + [b] == [a, b] && [a, b] + [c] == [a, b, c]
    ensures [a, b, c] + [d] == [a, b, c, d] && [a, b, c, d] + [e] == [a, b, c, d, e]
  {
  }

  /** Building a list is adding its nodes one after the other. */
  lemma BuildFive(a: DataNode, b: DataNode, c: DataNode, d: DataNode, e: DataNode)
    ensures RecordAll([a, b, c, d, e]) == Record(Record(Record(Record(Record(map[], a), b), c), d), e)
    ensures LinkAll([a, b, c, d, e]) == Linked(Linked(Linked(Linked(Linked(map[], a), b), c), d), e)
  {
    Literals(a, b, c, d, e);
    BuildOneMore([], a);
    BuildOneMore([a], b);
    BuildOneMore([a, b], c);
    BuildOneMore([a, b, c], d);
    BuildOneMore([a, b, c, d], e);
  }

  lemma OrderFive(a: DataNode, b: DataNode, c: DataNode, d: DataNode, e: DataNode)
    requires a.id == b.id == c.id && a.id != d.id && a.id != e.id && d.id != e.id
    ensures InsertionOrder([a, b, c, d, e]) == [a.id, d.id, e.id]
  {
    Literals(a, b, c, d, e);
    Literals(a.id, d.id, e.id, a.id, a.id);
    OrderOneMore([], a);
    OrderOneMore([a], b);
    OrderOneMore([a, b], c);
    OrderOneMore([a, b, c], d);
    OrderOneMore([a, b, c, d], e);
  }

  lemma ReaddedLinks(n: NodeId, x: NodeId, y: NodeId)
    requires n != x && n != y && x != y
    ensures LinkAll(ReaddedNode(n, x, y)) == map[n := [], x := [n, y], y := [n]]
  {
    BuildFive(DataNode(n, [x]), DataNode(n, []), DataNode(n, [y]), DataNode(x, []), DataNode(y, [x]));
    FirstLink(n, x);
    ThirdLink(n, x, y);
    LastLink(n, x, y);
  }

  lemma ReaddedRecords(n: NodeId, x: NodeId, y: NodeId)
    requires n != x && n != y && x != y
    ensures RecordAll(ReaddedNode(n, x, y)) == map[n := [y], x := [], y := [x]]
    ensures InsertionOrder(ReaddedNode(n, x, y)) == [n, x, y]
  {
    BuildFive(DataNode(n, [x]), DataNode(n, []), DataNode(n, [y]), DataNode(x, []), DataNode(y, [x]));
    FirstRecords(n, x, y);
    RecordFresh(map[n := [y], x := []], DataNode(y, [x]));
    OrderFive(DataNode(n, [x]), DataNode(n, []), DataNode(n, [y]), DataNode(x, []), DataNode(y, [x]));
  }

  lemma FirstRecords(n: NodeId, x: NodeId, y: NodeId)
    requires n != x
    ensures Record(Record(Record(Record(map[], DataNode(n, [x])), DataNode(n, [])), DataNode(n, [y])), DataNode(x, []))
            == map[n := [y], x := []]
  {
    assert [] + [y] == [y];
    assert Record(Record(Record(map[], DataNode(n, [x])), DataNode(n, [])), DataNode(n, [y])) == map[n := [y]];
  }

  lemma ReaddedSources(n: NodeId, x: NodeId, y: NodeId)
    requires n != x && n != y && x != y
    ensures Sources(map[n := [y], x := [], y := [x]], [n, x, y]) == [x]
  {
    var g: Graph := map[n := [y], x := [], y := [x]];
    assert [n, x, y][..2] == [n, x] && [n, x][..1] == [n] && [n][..0] == [];
    assert Sources(g, [n]) == [];
    assert Sources(g, [n, x]) == [x];
  }

  lemma ReaddedDrained(adjacency: Graph, n: NodeId, x: NodeId, y: NodeId)
    requires n != x && n != y && x != y && adjacency == map[n := [], x := [n, y], y := [n]]
    ensures Drained(adjacency, map[n := 0, x := 0, y := 0], [n, y]) == [n, y]
  {
    var released := map[n := 0, x := 0, y := 0];
    assert [n, y][1..] == [y] && [y][1..] == [] && [n][1..] == [];
    assert Released(released, [y], []) == (released, [y]);
    assert Released(released, [], [n]) == (released[n := -1], []);
    assert Drained(adjacency, released, [y]) == [y];
  }

  lemma ReaddedReleased(n: NodeId, x: NodeId, y: NodeId)
    requires n != x && n != y && x != y
    ensures Released(map[n := 1, x := 0, y := 1], [], [n, y]) == (map[n := 0, x := 0, y := 0], [n, y])
  {
    var start := map[n := 1, x := 0, y := 1];
    assert [n, y][1..] == [y] && [y][1..] == [] && [] + [n] == [n] && [n] + [y] == [n, y];
    assert start[n := 0][y := 0] == map[n := 0, x := 0, y := 0];
    assert Released(start[n := 0], [n], [y]) == (start[n := 0][y := 0], [n, y]);
  }

  lemma ReaddedOrder(n: NodeId, x: NodeId, y: NodeId)
    requires n != x && n != y && x != y
    ensures KahnOrder(map[n := [], x := [n, y], y := [n]], [n, x, y], map[n := [y], x := [], y := [x]]) == [x, n, y]
  {
    var adjacency: Graph, g: Graph := map[n := [], x := [n, y], y := [n]], map[n := [y], x := [], y := [x]];
    ReaddedSources(n, x, y);
    ReaddedReleased(n, x, y);
    ReaddedDrained(adjacency, n, x, y);
    assert (map v | v in g :: |g[v]|) == map[n := 1, x := 0, y := 1];
    assert [x][1..] == [];
  }

  lemma ReaddedSortable(n: NodeId, x: NodeId, y: NodeId)
    requires n != x && n != y && x != y
    ensures var g := map[n := [y], x := [], y := [x]]; Sortable(g) && !IsTopoOrder(g, [x, n, y])
  {
    var g, order, wrong := map[n := [y], x := [], y := [x]], [x, y, n], [x, n, y];
    assert order[..1] == [x] && order[..2] == [x, y];
    TopoOrderSortable(g, order);
    assert y in Deps(g, wrong[1]) && y !in wrong[..1];
  }

  /** The graph can be sorted, but the loop emits each of its nodes with `n` before its dependency `y`. */
  ghost predicate Misleads(adjacency: Graph, nodeOrder: seq<NodeId>, g: Graph, n: NodeId, x: NodeId, y: NodeId) {
    && Sortable(g) && |g.Keys| == 3 && y in Deps(g, n)
    && (forall d, v :: v in Deps(adjacency, d) ==> v in g)
    && KahnOrder(adjacency, nodeOrder, g) == [x, n, y] && !IsTopoOrder(g, [x, n, y])
  }

  lemma ReaddedMapsMislead(n: NodeId, x: NodeId, y: NodeId)
    requires n != x && n != y && x != y
    ensures var g, adjacency := map[n := [y], x := [], y := [x]], map[n := [], x := [n, y], y := [n]];
            Misleads(adjacency, [n, x, y], g, n, x, y) && !Converse(adjacency, g)
  {
    ReaddedOrder(n, x, y);
    ReaddedSortable(n, x, y);
    var g, adjacency := map[n := [y], x := [], y := [x]], map[n := [], x := [n, y], y := [n]];
    assert g.Keys == {n, x, y};
    assert multiset(Deps(adjacency, x))[n] == 1 && multiset(Deps(g, n))[x] == 0;
  }

  /** After a reset the service can succeed with an order in which a node precedes its dependency. */
  lemma ResetBreaksOrder(n: NodeId, x: NodeId, y: NodeId)
    requires n != x && n != y && x != y
    ensures var l := ReaddedNode(n, x, y);
            !NoResets(l) && Misleads(LinkAll(l), InsertionOrder(l), RecordAll(l), n, x, y)
  {
    ReaddedRecords(n, x, y);
    ReaddedLinks(n, x, y);
    ReaddedMapsMislead(n, x, y);
    MirroredIffNoResets(ReaddedNode(n, x, y));
  }

  /** The same through the service itself: it is built without an error from a list of these nodes, */
  method BuildReadded(n: NodeId, x: NodeId, y: NodeId) returns (service: DAGService, built: Result<bool, seq<NodeId>>)
    requires n != x && n != y && x != y
    ensures fresh(service) && service.Valid() && service.Recorded() == RecordAll(ReaddedNode(n, x, y))
    ensures built == Ok(true) && !service.Mirrored()
    ensures Misleads(service.adjacency, service.nodeOrder, service.Recorded(), n, x, y)
  {
    service := new DAGService();
    built := service.BuildDag(ReaddedNode(n, x, y));
    ResetBreaksOrder(n, x, y);
  }

  /** and then sorted successfully into an order that is wrong for a graph that has a right one. */
  method SortReadded(n: NodeId, x: NodeId, y: NodeId, service: DAGService)
    returns (sorted: Result<seq<NodeId>, OrderError>)
    requires service.Valid() && Misleads(service.adjacency, service.nodeOrder, service.Recorded(), n, x, y)
    modifies service`reverse, service`verified
    ensures service.Recorded() == old(service.Recorded()) && Sortable(service.Recorded())
    ensures sorted == Ok([x, n, y]) && !IsTopoOrder(service.Recorded(), [x, n, y])
  {
    assert service.nodes.Keys == service.Recorded().Keys;
    sorted := service.GetTopologicalOrder();
  }
}
