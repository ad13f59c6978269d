/**
 What the in-degree loop of `get_topological_order` keeps, step by step
 (src/qmtl/dag_manager/strategy/dag_service.py:136-158).
 */
module Kahn {
  import opened Sequences
  import opened Graphs
  import opened Levels

  /** How many entries of `deps` are not yet in `order`. */
  ghost function Open(deps: seq<NodeId>, order: seq<NodeId>): nat {
    if deps == [] then 0
    else Open(deps[..|deps| - 1], order) + if deps[|deps| - 1] in order then 0 else 1
  }

  lemma {:induction false} OpenInitially(deps: seq<NodeId>)
    ensures Open(deps, []) == |deps|
  {
    if deps != [] {
      OpenInitially(deps[..|deps| - 1]);
    }
  }

  lemma {:induction false} OpenAfterEmit(deps: seq<NodeId>, order: seq<NodeId>, c: NodeId)
    requires c !in order
    ensures Open(deps, order) == Open(deps, order + [c]) + multiset(deps)[c]
  {
    if deps != [] {
      var rest := deps[..|deps| - 1];
      OpenAfterEmit(rest, order, c);
      assert deps == rest + [deps[|deps| - 1]];
    }
  }

  lemma {:induction false} OpenZero(deps: seq<NodeId>, order: seq<NodeId>)
    ensures Open(deps, order) == 0 <==> forall d :: d in deps ==> d in order
  {
    if deps != [] {
      var rest := deps[..|deps| - 1];
      OpenZero(rest, order);
      assert deps == rest + [deps[|deps| - 1]];
    }
  }

  /**
   `rest` are the dependents of the node emitted last that are still to be decremented.
   A node is emitted or queued exactly when its count has reached zero.
   */
  ghost predicate Counted(g: Graph, rest: seq<NodeId>, order: seq<NodeId>, queue: seq<NodeId>,
                          inDegree: map<NodeId, int>)
  {
    && inDegree.Keys == g.Keys
    && Grounded(g, order + queue)
    && (forall v :: v in order + queue ==> v in g)
    && (forall v :: v in g ==> inDegree[v] == Open(g[v], order) + multiset(rest)[v])
    && (forall v :: v in g ==> (v in order + queue <==> inDegree[v] == 0))
  }

  /** Emitted and queued nodes are in level order, and the queue spans at most one further level. */
  ghost predicate Levelled(g: Graph, order: seq<NodeId>, queue: seq<NodeId>) {
    && LevelSorted(g, order + queue)
    && forall x :: x in queue ==>
         if order == [] then Level(g, x) == 0 else Level(g, x) <= Level(g, order[|order| - 1]) + 1
  }

  lemma Start(g: Graph, queue: seq<NodeId>, inDegree: map<NodeId, int>)
    requires inDegree.Keys == g.Keys && forall v :: v in g ==> inDegree[v] == |g[v]|
    requires Distinct(queue) && forall v :: v in queue <==> v in g && inDegree[v] == 0
    ensures Counted(g, [], [], queue, inDegree) && Levelled(g, [], queue)
  {
    assert [] + queue == queue;
    forall v | v in g
      ensures inDegree[v] == Open(g[v], [])
    {
      OpenInitially(g[v]);
    }
    StartLevels(g, queue);
  }

  lemma StartLevels(g: Graph, queue: seq<NodeId>)
    requires forall v :: v in queue ==> v in g && |g[v]| == 0
    ensures Levelled(g, [], queue)
  {
    assert [] + queue == queue;
    forall v | v in queue
      ensures Level(g, v) == 0
    {
      assert Deps(g, v) == [];
      LeafLevel(g, v);
    }
  }

  lemma Emit(g: Graph, order: seq<NodeId>, queue: seq<NodeId>, inDegree: map<NodeId, int>,
             dependents: seq<NodeId>)
    requires Counted(g, [], order, queue, inDegree) && Levelled(g, order, queue) && queue != []
    requires forall v :: multiset(dependents)[v] == multiset(Deps(g, v))[queue[0]]
    ensures Counted(g, dependents, order + [queue[0]], queue[1..], inDegree)
    ensures Levelled(g, order + [queue[0]], queue[1..])
  {
    var c := queue[0];
    var order' := order + [c];
    assert order' + queue[1..] == order + queue;
    assert c !in order by {
      assert (order + queue)[|order|] == c;
      forall i | 0 <= i < |order|
        ensures order[i] != c
      {
        assert (order + queue)[i] == order[i];
      }
    }
    forall v | v in g
      ensures inDegree[v] == Open(g[v], order') + multiset(dependents)[v]
    {
      OpenAfterEmit(g[v], order, c);
    }
    if order != [] {
      var s := order + queue;
      assert s[|order| - 1] == order[|order| - 1] && s[|order|] == c;
    }
  }

  /** A dependent whose count reaches zero is one level above the node emitted last. */
  lemma NewlyReadyLevel(g: Graph, order: seq<NodeId>, queue: seq<NodeId>, v: NodeId)
    requires Grounded(g, order + queue) && Levelled(g, order, queue) && order != []
    requires forall d :: d in Deps(g, v) ==> d in order
    requires order[|order| - 1] in Deps(g, v)
    ensures Level(g, v) == Level(g, order[|order| - 1]) + 1
    ensures forall x :: x in order + queue ==> Level(g, x) <= Level(g, v)
  {
    var s := order + queue;
    var last := order[|order| - 1];
    assert s[|order| - 1] == last;
    forall x | x in order
      ensures HasLevel(g, x) && Level(g, x) <= Level(g, last)
    {
      var i :| 0 <= i < |order| && order[i] == x;
      assert s[i] == x;
      GroundedHasLevel(g, s, i);
    }
    LevelAbove(g, v, Level(g, last));
    DependencyLevel(g, v, last);
  }

  lemma DecrementCounts(g: Graph, rest: seq<NodeId>, order: seq<NodeId>, inDegree: map<NodeId, int>)
    requires inDegree.Keys == g.Keys && rest != [] && rest[0] in g
    requires forall v :: v in g ==> inDegree[v] == Open(g[v], order) + multiset(rest)[v]
    ensures inDegree[rest[0]] > 0
    ensures var inDegree' := inDegree[rest[0] := inDegree[rest[0]] - 1];
            forall v :: v in g ==> inDegree'[v] == Open(g[v], order) + multiset(rest[1..])[v]
  {
    assert rest == [rest[0]] + rest[1..];
    assert forall v :: multiset(rest)[v] == multiset([rest[0]])[v] + multiset(rest[1..])[v];
  }

  lemma PushReady(g: Graph, order: seq<NodeId>, queue: seq<NodeId>, v: NodeId)
    requires Grounded(g, order + queue) && Levelled(g, order, queue)
    requires v in g && v !in order + queue && Open(g[v], order) == 0
    requires order != [] && order[|order| - 1] in g[v]
    ensures Grounded(g, order + (queue + [v])) && Levelled(g, order, queue + [v])
  {
    assert order + (queue + [v]) == order + queue + [v];
    OpenZero(g[v], order);
    ExtendGrounded(g, order + queue, v);
    NewlyReadyLevel(g, order, queue, v);
    var s := order + queue + [v];
    forall i, j | 0 <= i < j < |s|
      ensures Level(g, s[i]) <= Level(g, s[j])
    {
      if j < |order + queue| {
        assert Level(g, (order + queue)[i]) <= Level(g, (order + queue)[j]);
      } else {
        assert s[i] in order + queue;
      }
    }
  }

  lemma Decrement(g: Graph, rest: seq<NodeId>, order: seq<NodeId>, queue: seq<NodeId>,
                  inDegree: map<NodeId, int>)
    requires Counted(g, rest, order, queue, inDegree) && Levelled(g, order, queue)
    requires rest != [] && rest[0] in g && order != [] && order[|order| - 1] in g[rest[0]]
    ensures inDegree[rest[0]] > 0
    ensures var v := rest[0];
            var inDegree' := inDegree[v := inDegree[v] - 1];
            var queue' := if inDegree'[v] == 0 then queue + [v] else queue;
            Counted(g, rest[1..], order, queue', inDegree') && Levelled(g, order, queue')
  {
    var v := rest[0];
    DecrementCounts(g, rest, order, inDegree);
    if inDegree[v] == 1 {
      PushReady(g, order, queue, v);
      assert order + (queue + [v]) == order + queue + [v];
      assert forall x :: x in order + queue + [v] <==> x in order + queue || x == v;
    }
  }

  /** The outcome of the loop: the unblocked nodes, dependencies first and in level order. */
  ghost predicate EmitsUnblocked(g: Graph, order: seq<NodeId>) {
    && Grounded(g, order) && LevelSorted(g, order)
    && (forall v :: v in order <==> v in g && !Blocked(g, v))
    && (|order| == |g| <==> Sortable(g))
    && (|order| == |g| <==> IsTopoOrder(g, order))
  }

  /** When the queue runs empty, the nodes never emitted are exactly the blocked ones. */
  lemma Finish(g: Graph, order: seq<NodeId>, inDegree: map<NodeId, int>)
    requires Counted(g, [], order, [], inDegree) && Levelled(g, order, [])
    ensures EmitsUnblocked(g, order)
  {
    assert order + [] == order;
    var stuck := set v | v in g && v !in order;
    forall v | v in stuck
      ensures exists d :: d in g[v] && (d in stuck || d !in g)
    {
      OpenZero(g[v], order);
    }
    forall v | v in g
      ensures v in order <==> !Blocked(g, v)
    {
      if v in order {
        GroundedNotBlocked(g, order, v);
      } else {
        StuckIsBlocked(g, stuck, v);
      }
    }
    CoversByLength(order, g.Keys);
    SortableIffUnblocked(g);
  }

  // ------------------------------------------------------ what the loop does on any maps

  ghost function Positive(inDegree: map<NodeId, int>): set<NodeId> {
    set v | v in inDegree && inDegree[v] > 0
  }

  /** Only a count that reaches zero adds to the queue, and it leaves the positive ones. */
  lemma PositiveAfterDecrement(inDegree: map<NodeId, int>, v: NodeId)
    requires v in inDegree
    ensures |Positive(inDegree[v := inDegree[v] - 1])| + (if inDegree[v] == 1 then 1 else 0) <= |Positive(inDegree)|
  {
    var after := Positive(inDegree[v := inDegree[v] - 1]);
    if inDegree[v] == 1 {
      assert after == Positive(inDegree) - {v};
    } else {
      assert after == Positive(inDegree);
    }
  }

  /** Counts and queue after counting down `v`. */
  function CountedDown(s: (map<NodeId, int>, seq<NodeId>), v: NodeId): (map<NodeId, int>, seq<NodeId>)
    requires v in s.0
  {
    (s.0[v := s.0[v] - 1], if s.0[v] == 1 then s.1 + [v] else s.1)
  }

  /** The inner loop: counting down one dependent after the other, and queueing those that reach zero. */
  function Released(inDegree: map<NodeId, int>, queue: seq<NodeId>, dependents: seq<NodeId>)
    : (r: (map<NodeId, int>, seq<NodeId>))
    requires forall v :: v in dependents ==> v in inDegree
    ensures r.0.Keys == inDegree.Keys
    ensures |Positive(r.0)| + |r.1| <= |Positive(inDegree)| + |queue|
    decreases |dependents|
  {
    if dependents == [] then (inDegree, queue)
    else
      PositiveAfterDecrement(inDegree, dependents[0]);
      var (inDegree', queue') := CountedDown((inDegree, queue), dependents[0]);
      Released(inDegree', queue', dependents[1..])
  }

  /** The outer loop: what is still emitted from these counts and this queue. */
  function Drained(adjacency: Graph, inDegree: map<NodeId, int>, queue: seq<NodeId>): (order: seq<NodeId>)
    requires forall d, v :: v in Deps(adjacency, d) ==> v in inDegree
    decreases |Positive(inDegree)| + |queue|
  {
    if queue == [] then []
    else
      var (inDegree', queue') := Released(inDegree, queue[1..], Deps(adjacency, queue[0]));
      [queue[0]] + Drained(adjacency, inDegree', queue')
  }

  lemma DrainedOneMore(adjacency: Graph, inDegree: map<NodeId, int>, queue: seq<NodeId>, order: seq<NodeId>)
    requires forall d, v :: v in Deps(adjacency, d) ==> v in inDegree
    requires queue != []
    ensures var (inDegree', queue') := Released(inDegree, queue[1..], Deps(adjacency, queue[0]));
            order + Drained(adjacency, inDegree, queue) == order + [queue[0]] + Drained(adjacency, inDegree', queue')
  {
  }

  /** The nodes that wait for nothing, in insertion order. */
  function Sources(g: Graph, nodeOrder: seq<NodeId>): seq<NodeId> {
    if nodeOrder == [] then []
    else
      var last := nodeOrder[|nodeOrder| - 1];
      Sources(g, nodeOrder[..|nodeOrder| - 1]) + if Deps(g, last) == [] then [last] else []
  }

  /** The order the loop emits for the dependencies `g`, following the dependents listed in `adjacency`. */
  function KahnOrder(adjacency: Graph, nodeOrder: seq<NodeId>, g: Graph): seq<NodeId>
    requires forall d, v :: v in Deps(adjacency, d) ==> v in g
  {
    Drained(adjacency, map v | v in g :: |g[v]|, Sources(g, nodeOrder))
  }

  // ------------------------------------------------------------- first in, first out

  lemma {:induction false} SourcesConcat(g: Graph, a: seq<NodeId>, b: seq<NodeId>)
    ensures Sources(g, a + b) == Sources(g, a) + Sources(g, b)
  {
    if b == [] {
      assert a + b == a;
    } else {
      var rest, last := b[..|b| - 1], b[|b| - 1];
      SourcesConcat(g, a, rest);
      assert (a + b)[..|a + b| - 1] == a + rest && (a + b)[|a + b| - 1] == last;
    }
  }

  /** Newly ready nodes line up at the end of the queue, */
  lemma {:induction false} ReleasedQueuesBehind(inDegree: map<NodeId, int>, queue: seq<NodeId>, dependents: seq<NodeId>)
    requires forall v :: v in dependents ==> v in inDegree
    ensures queue <= Released(inDegree, queue, dependents).1
    decreases |dependents|
  {
    if dependents != [] {
      var (inDegree', queue') := CountedDown((inDegree, queue), dependents[0]);
      ReleasedQueuesBehind(inDegree', queue', dependents[1..]);
    }
  }

  /** so that the queue is emitted in its order before anything that joins it later. */
  lemma {:induction false} QueueComesFirst(adjacency: Graph, inDegree: map<NodeId, int>, queue: seq<NodeId>)
    requires forall d, v :: v in Deps(adjacency, d) ==> v in inDegree
    ensures queue <= Drained(adjacency, inDegree, queue)
    decreases |Positive(inDegree)| + |queue|
  {
    if queue != [] {
      ReleasedQueuesBehind(inDegree, queue[1..], Deps(adjacency, queue[0]));
      var (inDegree', queue') := Released(inDegree, queue[1..], Deps(adjacency, queue[0]));
      QueueComesFirst(adjacency, inDegree', queue');
      assert queue == [queue[0]] + queue[1..];
    }
  }

  lemma SourceAlone(g: Graph, v: NodeId)
    requires Deps(g, v) == []
    ensures Sources(g, [v]) == [v]
  {
    assert [v][..0] == [];
  }

  lemma SplitAt<T>(s: seq<T>, i: nat)
    requires i < |s|
    ensures s == s[..i] + ([s[i]] + s[i + 1..])
  {
  }

  lemma SourcesSplit(g: Graph, ids: seq<NodeId>, i: nat)
    requires i < |ids| && Deps(g, ids[i]) == []
    ensures Sources(g, ids) == Sources(g, ids[..i]) + ([ids[i]] + Sources(g, ids[i + 1..]))
  {
    SplitAt(ids, i);
    SourceAlone(g, ids[i]);
    SourcesConcat(g, ids[..i], [ids[i]] + ids[i + 1..]);
    SourcesConcat(g, [ids[i]], ids[i + 1..]);
  }

  /** The order starts with the nodes without dependencies, in the order in which they were added. */
  lemma {:induction false} SourcesComeFirst(adjacency: Graph, nodeOrder: seq<NodeId>, g: Graph, i: nat, j: nat)
    requires forall d, v :: v in Deps(adjacency, d) ==> v in g
    requires i < j < |nodeOrder| && Deps(g, nodeOrder[i]) == [] && Deps(g, nodeOrder[j]) == []
    ensures var order := KahnOrder(adjacency, nodeOrder, g);
            exists a, b :: 0 <= a < b < |order| && order[a] == nodeOrder[i] && order[b] == nodeOrder[j]
  {
    var order, first, tail := KahnOrder(adjacency, nodeOrder, g), Sources(g, nodeOrder[..i]), nodeOrder[i + 1..];
    QueueComesFirst(adjacency, map v | v in g :: |g[v]|, Sources(g, nodeOrder));
    SourcesSplit(g, nodeOrder, i);
    SourcesSplit(g, tail, j - i - 1);
    var between, rest := Sources(g, tail[..j - i - 1]), Sources(g, tail[j - i..]);
    var a, b := |first|, |first| + 1 + |between|;
    TwoPlaces(order, first, nodeOrder[i], between, nodeOrder[j], rest);
    assert order[a] == nodeOrder[i] && order[b] == nodeOrder[j];
  }

  lemma TwoPlaces<T>(s: seq<T>, first: seq<T>, x: T, between: seq<T>, y: T, rest: seq<T>)
    requires first + ([x] + (between + ([y] + rest))) <= s
    ensures |first| + 1 + |between| < |s| && s[|first|] == x && s[|first| + 1 + |between|] == y
  {
    var t := first + ([x] + (between + ([y] + rest)));
    assert t[|first|] == x && t[|first| + 1 + |between|] == y;
  }

  // ---------------------------------------------------- what it emits on mirrored maps

  /** The two maps are converse multisets: `d` lists `n` as often as `n` lists `d`. */
  ghost predicate Converse(adjacency: Graph, g: Graph) {
    forall d, n :: multiset(Deps(adjacency, d))[n] == multiset(Deps(g, n))[d]
  }

  lemma DependentsListEmitted(adjacency: Graph, g: Graph, c: NodeId)
    requires Converse(adjacency, g)
    ensures forall v :: v in Deps(adjacency, c) ==> c in Deps(g, v)
    ensures forall v :: multiset(Deps(adjacency, c))[v] == multiset(Deps(g, v))[c]
  {
    forall v | v in Deps(adjacency, c)
      ensures c in Deps(g, v)
    {
      assert multiset(Deps(adjacency, c))[v] > 0;
    }
  }

  lemma {:induction false} ReleasedKeeps(g: Graph, order: seq<NodeId>, queue: seq<NodeId>, inDegree: map<NodeId, int>,
                                         dependents: seq<NodeId>)
    requires Counted(g, dependents, order, queue, inDegree) && Levelled(g, order, queue) && order != []
    requires forall v :: v in dependents ==> v in inDegree && order[|order| - 1] in Deps(g, v)
    ensures var (inDegree', queue') := Released(inDegree, queue, dependents);
            Counted(g, [], order, queue', inDegree') && Levelled(g, order, queue')
    decreases |dependents|
  {
    if dependents != [] {
      Decrement(g, dependents, order, queue, inDegree);
      var (inDegree', queue') := CountedDown((inDegree, queue), dependents[0]);
      ReleasedKeeps(g, order, queue', inDegree', dependents[1..]);
    }
  }

  /** One turn of the loop. */
  lemma TurnKeeps(adjacency: Graph, g: Graph, order: seq<NodeId>, queue: seq<NodeId>, inDegree: map<NodeId, int>)
    requires Converse(adjacency, g) && queue != []
    requires Counted(g, [], order, queue, inDegree) && Levelled(g, order, queue)
    ensures forall v :: v in Deps(adjacency, queue[0]) ==> v in inDegree
    ensures var (inDegree', queue') := Released(inDegree, queue[1..], Deps(adjacency, queue[0]));
            Counted(g, [], order + [queue[0]], queue', inDegree') && Levelled(g, order + [queue[0]], queue')
  {
    var dependents := Deps(adjacency, queue[0]);
    DependentsListEmitted(adjacency, g, queue[0]);
    Emit(g, order, queue, inDegree, dependents);
    ReleasedKeeps(g, order + [queue[0]], queue[1..], inDegree, dependents);
  }

  lemma {:induction false} DrainedEmits(adjacency: Graph, g: Graph, order: seq<NodeId>, queue: seq<NodeId>,
                                        inDegree: map<NodeId, int>)
    requires Converse(adjacency, g) && forall d, v :: v in Deps(adjacency, d) ==> v in inDegree
    requires Counted(g, [], order, queue, inDegree) && Levelled(g, order, queue)
    ensures EmitsUnblocked(g, order + Drained(adjacency, inDegree, queue))
    decreases |Positive(inDegree)| + |queue|
  {
    if queue == [] {
      assert order + [] == order;
      Finish(g, order, inDegree);
    } else {
      TurnKeeps(adjacency, g, order, queue, inDegree);
      DrainedOneMore(adjacency, inDegree, queue, order);
      var (inDegree', queue') := Released(inDegree, queue[1..], Deps(adjacency, queue[0]));
      DrainedEmits(adjacency, g, order + [queue[0]], queue', inDegree');
    }
  }

  lemma {:induction false} SourcesExact(g: Graph, nodeOrder: seq<NodeId>)
    requires Distinct(nodeOrder)
    ensures Distinct(Sources(g, nodeOrder))
    ensures forall v :: v in Sources(g, nodeOrder) <==> v in nodeOrder && Deps(g, v) == []
  {
    if nodeOrder != [] {
      SourcesExact(g, nodeOrder[..|nodeOrder| - 1]);
      SplitLast(nodeOrder);
    }
  }

  lemma StartFromSources(g: Graph, nodeOrder: seq<NodeId>, inDegree: map<NodeId, int>)
    requires Distinct(nodeOrder) && forall v :: v in nodeOrder <==> v in g
    requires inDegree.Keys == g.Keys && forall v :: v in g ==> inDegree[v] == |g[v]|
    ensures Counted(g, [], [], Sources(g, nodeOrder), inDegree) && Levelled(g, [], Sources(g, nodeOrder))
  {
    SourcesExact(g, nodeOrder);
    Start(g, Sources(g, nodeOrder), inDegree);
  }

  /** On mirrored maps the loop emits exactly the unblocked nodes, dependencies first and level by level. */
  lemma KahnOrderEmitsUnblocked(adjacency: Graph, nodeOrder: seq<NodeId>, g: Graph)
    requires Converse(adjacency, g) && forall d, v :: v in Deps(adjacency, d) ==> v in g
    requires Distinct(nodeOrder) && forall v :: v in nodeOrder <==> v in g
    ensures EmitsUnblocked(g, KahnOrder(adjacency, nodeOrder, g))
  {
    var inDegree := map v | v in g :: |g[v]|;
    var order := Drained(adjacency, inDegree, Sources(g, nodeOrder));
    StartFromSources(g, nodeOrder, inDegree);
    DrainedEmits(adjacency, g, [], Sources(g, nodeOrder), inDegree);
    NothingBefore(order);
  }

  lemma NothingBefore<T>(s: seq<T>)
    ensures [] + s == s
  {
  }
}
