/**
 Driving the protocol in rounds: select and enqueue, drain the queue, complete everything
 that was popped.  Each round completes exactly one more level of the graph.
 */
module Rounds {
  import opened Sequences
  import opened Graphs
  import opened Levels
  import opened ReadySelection
  import opened WorkQueues
  import opened Protocol

  function Pops(n: nat): seq<Action> {
    if n == 0 then [] else Pops(n - 1) + [PopOne]
  }

  function Finishes(ids: seq<NodeId>): seq<Action> {
    if ids == [] then [] else Finishes(ids[..|ids| - 1]) + [Finish(ids[|ids| - 1])]
  }

  function RoundActions(g: Graph, s: State, order: seq<NodeId>): seq<Action> {
    var ready := ReadyAmong(g, s.statuses, order);
    [Select(order)] + Pops(|ready|) + Finishes(ready)
  }

  /** The state after one round per entry of `orders`, each using its own topological order. */
  function AfterRounds(g: Graph, s: State, orders: seq<seq<NodeId>>): State {
    if orders == [] then s
    else
      var t := AfterRounds(g, s, orders[..|orders| - 1]);
      After(g, t, RoundActions(g, t, orders[|orders| - 1]))
  }

  /** Completed are exactly the nodes below level `k`; the others are pending and nothing is queued. */
  ghost predicate LevelsDone(g: Graph, s: State, k: nat) {
    && s.queue == Queue([], [])
    && (forall v :: IsCompleted(s.statuses, v) <==> v in g && Level(g, v) < k)
    && (forall v :: !IsCompleted(s.statuses, v) ==> IsPending(s.statuses, v))
  }

  /** The queue after `n` pops. */
  function Drained(q: Queue, n: nat): Queue
    requires n <= |q.waiting|
  {
    var m := |q.waiting| - n;
    Queue(q.waiting[..m], q.waiting[m..] + q.processing)
  }

  lemma DrainedOneMore(q: Queue, n: nat)
    requires 0 < n <= |q.waiting|
    ensures Popped(Drained(q, n - 1)) == Drained(q, n)
  {
    var w, m := q.waiting, |q.waiting| - n;
    assert w[..m + 1][..m] == w[..m];
    assert [w[m]] + (w[m + 1..] + q.processing) == w[m..] + q.processing;
  }

  lemma {:induction false} OnlyPops(n: nat)
    ensures forall i :: 0 <= i < |Pops(n)| ==> Pops(n)[i] == PopOne
  {
    if n > 0 {
      OnlyPops(n - 1);
    }
  }

  lemma {:induction false} Drain(g: Graph, s: State, n: nat)
    requires n <= |s.queue.waiting|
    ensures After(g, s, Pops(n)) == s.(queue := Drained(s.queue, n))
  {
    if n == 0 {
      assert Drained(s.queue, 0) == s.queue;
    } else {
      Drain(g, s, n - 1);
      DrainedOneMore(s.queue, n);
      AfterOneMore(g, s, Pops(n - 1), PopOne);
    }
  }

  lemma {:induction false} FinishAll(g: Graph, s: State, ids: seq<NodeId>)
    requires Distinct(ids) && forall v :: v in ids ==> v in s.queue.processing
    ensures Executable(g, s, Finishes(ids))
    ensures var t := After(g, s, Finishes(ids));
            && t.statuses == MarkAll(s.statuses, ids, COMPLETED)
            && t.queue.waiting == s.queue.waiting
            && forall v :: v in t.queue.processing <==> v in s.queue.processing && v !in ids
  {
    if ids != [] {
      var rest, last := ids[..|ids| - 1], ids[|ids| - 1];
      SplitLast(ids);
      FinishAll(g, s, rest);
      var t := After(g, s, Finishes(rest));
      assert last !in rest;
      ExecutableOneMore(g, s, Finishes(rest), Finish(last));
      AfterOneMore(g, s, Finishes(rest), Finish(last));
      WithoutShrinks(t.queue.processing, last);
    }
  }

  // -------------------------------------------------------------------- one round

  /** Selecting and draining an empty queue: every selected node is READY and being processed. */
  lemma SelectAndDrain(g: Graph, s: State, order: seq<NodeId>)
    requires IsTopoOrder(g, order) && s.queue == Queue([], [])
    ensures var ready := ReadyAmong(g, s.statuses, order);
            var actions := [Select(order)] + Pops(|ready|);
            && Executable(g, s, actions)
            && After(g, s, actions).statuses == MarkAll(s.statuses, ready, READY)
            && After(g, s, actions).queue.waiting == []
            && forall v :: v in After(g, s, actions).queue.processing <==> v in ready
  {
    var ready := ReadyAmong(g, s.statuses, order);
    var select, pops := [Select(order)], Pops(|ready|);
    assert select[..0] == [] && [] + select == select;
    AfterOneMore(g, s, [], Select(order));
    var s1 := After(g, s, select);
    PushAllExact(s.queue, ready);
    OnlyPops(|ready|);
    assert Executable(g, s1, pops);
    Drain(g, s1, |ready|);
    ExecutableConcat(g, s, select, pops);
    AfterConcat(g, s, select, pops);
    assert Drained(s1.queue, |ready|) == Queue([], s1.queue.waiting + []);
  }

  /** Selecting, draining and completing: what is selected becomes completed and the queue is empty again. */
  lemma RoundCompletesReady(g: Graph, s: State, order: seq<NodeId>)
    requires IsTopoOrder(g, order) && s.queue == Queue([], [])
    ensures Executable(g, s, RoundActions(g, s, order))
    ensures var ready := ReadyAmong(g, s.statuses, order);
            After(g, s, RoundActions(g, s, order)) ==
            State(MarkAll(MarkAll(s.statuses, ready, READY), ready, COMPLETED), Queue([], []))
  {
    var ready := ReadyAmong(g, s.statuses, order);
    var first := [Select(order)] + Pops(|ready|);
    ReadyAmongExact(g, s.statuses, order);
    SelectAndDrain(g, s, order);
    var s2 := After(g, s, first);
    FinishAll(g, s2, ready);
    ExecutableConcat(g, s, first, Finishes(ready));
    AfterConcat(g, s, first, Finishes(ready));
    NoMembers(After(g, s2, Finishes(ready)).queue.processing);
  }

  /** When the nodes below level `k` are done, the ready nodes are those at level `k`. */
  lemma ReadyIsNextLevel(g: Graph, s: State, k: nat, v: NodeId)
    requires Sortable(g) && LevelsDone(g, s, k) && v in g
    ensures IsReady(g, s.statuses, v) <==> Level(g, v) == k
  {
    AcyclicHasLevel(g, v);
    forall d | d in g[v]
      ensures Level(g, d) < Level(g, v)
    {
      DependencyLevel(g, v, d);
    }
    if IsReady(g, s.statuses, v) && g[v] != [] {
      var d := DeepestDependency(g, v);
    }
    if g[v] == [] {
      LeafLevel(g, v);
    }
  }

  lemma MarkedTwice(statuses: StatusMap, ready: seq<NodeId>)
    ensures var t := MarkAll(MarkAll(statuses, ready, READY), ready, COMPLETED);
            && (forall v :: IsCompleted(t, v) <==> IsCompleted(statuses, v) || v in ready)
            && (forall v :: v !in ready ==> (IsPending(t, v) <==> IsPending(statuses, v)))
  {
    MarkAllExact(statuses, ready, READY);
    MarkAllExact(MarkAll(statuses, ready, READY), ready, COMPLETED);
  }

  lemma RoundCompletesLevel(g: Graph, s: State, k: nat, order: seq<NodeId>)
    requires Sortable(g) && LevelsDone(g, s, k) && IsTopoOrder(g, order)
    ensures Executable(g, s, RoundActions(g, s, order))
    ensures LevelsDone(g, After(g, s, RoundActions(g, s, order)), k + 1)
  {
    var ready := ReadyAmong(g, s.statuses, order);
    RoundCompletesReady(g, s, order);
    MarkedTwice(s.statuses, ready);
    forall v
      ensures v in ready <==> v in g && Level(g, v) == k
    {
      ReadyAmongExact(g, s.statuses, order);
      if v in g {
        ReadyIsNextLevel(g, s, k, v);
      }
    }
  }

  // ------------------------------------------------------------------- whole runs

  /** From an all-pending state, `k` rounds complete exactly the nodes with a longest chain shorter than `k`. */
  lemma {:induction false} RoundsCompleteLevels(g: Graph, s: State, orders: seq<seq<NodeId>>)
    requires Sortable(g) && Initial(s)
    requires forall i :: 0 <= i < |orders| ==> IsTopoOrder(g, orders[i])
    ensures LevelsDone(g, AfterRounds(g, s, orders), |orders|)
    decreases |orders|
  {
    if orders == [] {
      InitialIsSafe(g, s);
    } else {
      var rest := orders[..|orders| - 1];
      RoundsCompleteLevels(g, s, rest);
      RoundCompletesLevel(g, AfterRounds(g, s, rest), |rest|, orders[|orders| - 1]);
    }
  }

  /** The number of levels of the graph. */
  ghost predicate HasLevels(g: Graph, h: nat) {
    && (forall v :: v in g ==> Level(g, v) < h)
    && (h > 0 ==> exists v :: v in g && Level(g, v) == h - 1)
  }

  lemma {:induction false} LevelsExist(g: Graph, keys: set<NodeId>) returns (h: nat)
    requires keys <= g.Keys
    ensures forall v :: v in keys ==> Level(g, v) < h
    ensures h > 0 ==> exists v :: v in keys && Level(g, v) == h - 1
    ensures keys == g.Keys ==> HasLevels(g, h)
  {
    if keys == {} {
      h := 0;
    } else {
      var v :| v in keys;
      var below := LevelsExist(g, keys - {v});
      h := if below <= Level(g, v) then Level(g, v) + 1 else below;
    }
  }

  lemma {:induction false} RunEndsAfterLastLevel(g: Graph, s: State, orders: seq<seq<NodeId>>, h: nat)
    requires Sortable(g) && Initial(s) && HasLevels(g, h)
    requires forall i :: 0 <= i < |orders| ==> IsTopoOrder(g, orders[i])
    ensures (forall v :: v in g ==> IsCompleted(AfterRounds(g, s, orders).statuses, v)) <==> h <= |orders|
  {
    RoundsCompleteLevels(g, s, orders);
    if h > |orders| {
      var v :| v in g && Level(g, v) == h - 1;
      assert !IsCompleted(AfterRounds(g, s, orders).statuses, v);
    }
  }

  /** Every graph has a number of levels, and every run on it is finished after as many rounds and not before. */
  lemma {:induction false} EveryRunEnds(g: Graph) returns (h: nat)
    requires Sortable(g)
    ensures HasLevels(g, h)
    ensures forall s, orders | Initial(s) && (forall order :: order in orders ==> IsTopoOrder(g, order)) ::
              (forall v :: v in g ==> IsCompleted(AfterRounds(g, s, orders).statuses, v)) <==> h <= |orders|
  {
    h := LevelsExist(g, g.Keys);
    forall s, orders | Initial(s) && (forall order :: order in orders ==> IsTopoOrder(g, order))
      ensures (forall v :: v in g ==> IsCompleted(AfterRounds(g, s, orders).statuses, v)) <==> h <= |orders|
    {
      RunEndsAfterLastLevel(g, s, orders, h);
    }
  }

  /** While nothing runs or has failed, the ready list is empty only when everything is completed. */
  lemma SomethingIsReady(g: Graph, s: State, order: seq<NodeId>)
    requires Sortable(g) && IsTopoOrder(g, order)
    requires forall v :: v in g ==> IsPending(s.statuses, v) || IsCompleted(s.statuses, v)
    ensures ReadyAmong(g, s.statuses, order) == [] <==> forall v :: v in g ==> IsCompleted(s.statuses, v)
  {
    ReadyAmongExact(g, s.statuses, order);
    var ready := ReadyAmong(g, s.statuses, order);
    var done := set v | v in g && IsCompleted(s.statuses, v);
    if exists x :: x in g && x !in done {
      var v := UnfinishedMinimum(g, done);
      assert IsReady(g, s.statuses, v);
      assert v in ready;
    }
    NoMembers(ready);
  }
}
