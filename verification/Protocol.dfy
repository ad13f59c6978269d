/**
 The step protocol that the selector, the worker and the queue form together:
 select and enqueue, pop, complete.  `g` is the sorted strategy graph.
 */
module Protocol {
  import opened Sequences
  import opened Graphs
  import opened ReadySelection
  import opened WorkQueues

  datatype State = State(statuses: StatusMap, queue: Queue)

  datatype Action = Select(order: seq<NodeId>) | PopOne | Finish(id: NodeId)

  function MarkAll(statuses: StatusMap, ids: seq<NodeId>, status: Status): StatusMap {
    if ids == [] then statuses else MarkAll(statuses, ids[..|ids| - 1], status)[ids[|ids| - 1] := status]
  }

  function PushAll(q: Queue, ids: seq<NodeId>): Queue {
    if ids == [] then q else Pushed(PushAll(q, ids[..|ids| - 1]), ids[|ids| - 1])
  }

  /** Queueing a list of selected nodes marks each of them READY. */
  function Enqueue(s: State, ready: seq<NodeId>): State {
    State(MarkAll(s.statuses, ready, READY), PushAll(s.queue, ready))
  }

  /** The selection uses some topological order; a node is only completed while it is being processed. */
  ghost predicate Enabled(g: Graph, s: State, a: Action) {
    match a
    case Select(order) => IsTopoOrder(g, order)
    case PopOne => true
    case Finish(id) => id in s.queue.processing
  }

  function Apply(g: Graph, s: State, a: Action): State {
    match a
    case Select(order) => Enqueue(s, ReadyAmong(g, s.statuses, order))
    case PopOne => s.(queue := Popped(s.queue))
    case Finish(id) => State(s.statuses[id := COMPLETED], Removed(s.queue, id))
  }

  function After(g: Graph, s: State, actions: seq<Action>): State {
    if actions == [] then s else Apply(g, After(g, s, actions[..|actions| - 1]), actions[|actions| - 1])
  }

  ghost predicate Executable(g: Graph, s: State, actions: seq<Action>) {
    forall i :: 0 <= i < |actions| ==> Enabled(g, After(g, s, actions[..i]), actions[i])
  }

  /** Nothing queued, every status absent, PENDING or READY. */
  ghost predicate Initial(s: State) {
    s.queue == Queue([], []) && forall v :: IsPending(s.statuses, v)
  }

  lemma InitialIsSafe(g: Graph, s: State)
    requires Initial(s)
    ensures Safe(g, s) && forall v :: !IsCompleted(s.statuses, v)
  {
    assert forall v :: IsPending(s.statuses, v) ==> !IsCompleted(s.statuses, v);
  }

  /** What every step keeps. */
  ghost predicate Safe(g: Graph, s: State) {
    && (forall v, d :: IsCompleted(s.statuses, v) && d in Deps(g, v) ==> IsCompleted(s.statuses, d))
    && (forall v :: v in s.queue.waiting || v in s.queue.processing ==> Launchable(g, s, v))
  }

  /** A queued node is registered, marked, and waits for nothing. */
  ghost predicate Launchable(g: Graph, s: State, v: NodeId) {
    && v in g && v in s.statuses && (s.statuses[v].READY? || s.statuses[v].COMPLETED?)
    && forall d :: d in g[v] ==> IsCompleted(s.statuses, d)
  }

  ghost predicate Grows(s: State, t: State) {
    forall v :: IsCompleted(s.statuses, v) ==> IsCompleted(t.statuses, v)
  }

  lemma {:induction false} MarkAllExact(statuses: StatusMap, ids: seq<NodeId>, status: Status)
    ensures forall v :: v in MarkAll(statuses, ids, status) <==> v in statuses || v in ids
    ensures forall v :: v in MarkAll(statuses, ids, status) ==>
              MarkAll(statuses, ids, status)[v] == if v in ids then status else statuses[v]
  {
    if ids != [] {
      SplitLast(ids);
      MarkAllExact(statuses, ids[..|ids| - 1], status);
    }
  }

  lemma {:induction false} PushAllExact(q: Queue, ids: seq<NodeId>)
    ensures PushAll(q, ids).processing == q.processing
    ensures |PushAll(q, ids).waiting| == |ids| + |q.waiting|
    ensures forall v :: v in PushAll(q, ids).waiting <==> v in q.waiting || v in ids
  {
    if ids != [] {
      SplitLast(ids);
      PushAllExact(q, ids[..|ids| - 1]);
    }
  }

  /** Pushed one after the other at the left, they wait in reverse, in front of what waited before. */
  lemma {:induction false} PushAllReverses(q: Queue, ids: seq<NodeId>)
    ensures PushAll(q, ids).waiting == Reversed(ids) + q.waiting
  {
    if ids == [] {
      assert Reversed(ids) + q.waiting == q.waiting;
    } else {
      var rest, last := ids[..|ids| - 1], ids[|ids| - 1];
      PushAllReverses(q, rest);
      SplitLast(ids);
      ReversedAppend(rest, last);
      assert [last] + (Reversed(rest) + q.waiting) == [last] + Reversed(rest) + q.waiting;
    }
  }

  /** Queueing any list, fresh or stale, keeps completions exactly when it lists no completed node. */
  lemma EnqueueKeepsCompletedIff(s: State, ready: seq<NodeId>)
    ensures Grows(s, Enqueue(s, ready)) <==> forall v :: v in ready ==> !IsCompleted(s.statuses, v)
  {
    MarkAllExact(s.statuses, ready, READY);
    if v :| v in ready && IsCompleted(s.statuses, v) {
      assert !IsCompleted(Enqueue(s, ready).statuses, v);
    }
  }

  // ------------------------------------------------------------ composing executions

  lemma {:induction false} AfterConcat(g: Graph, s: State, a: seq<Action>, b: seq<Action>)
    ensures After(g, s, a + b) == After(g, After(g, s, a), b)
    decreases |b|
  {
    if b == [] {
      assert a + b == a;
    } else {
      var rest, last := b[..|b| - 1], b[|b| - 1];
      AfterConcat(g, s, a, rest);
      SplitLast(b);
      assert a + b == (a + rest) + [last];
      AfterOneMore(g, s, a + rest, last);
    }
  }

  lemma {:induction false} ExecutableConcat(g: Graph, s: State, a: seq<Action>, b: seq<Action>)
    requires Executable(g, s, a) && Executable(g, After(g, s, a), b)
    ensures Executable(g, s, a + b)
  {
    forall i | 0 <= i < |a + b|
      ensures Enabled(g, After(g, s, (a + b)[..i]), (a + b)[i])
    {
      if i < |a| {
        assert (a + b)[..i] == a[..i];
      } else {
        assert (a + b)[..i] == a + b[..i - |a|];
        AfterConcat(g, s, a, b[..i - |a|]);
      }
    }
  }

  lemma ExecutableOneMore(g: Graph, s: State, a: seq<Action>, last: Action)
    requires Executable(g, s, a) && Enabled(g, After(g, s, a), last)
    ensures Executable(g, s, a + [last])
  {
    assert [last][..0] == [];
    ExecutableConcat(g, s, a, [last]);
  }

  lemma AfterOneMore(g: Graph, s: State, actions: seq<Action>, a: Action)
    ensures After(g, s, actions + [a]) == Apply(g, After(g, s, actions), a)
  {
    assert (actions + [a])[..|actions|] == actions;
  }

  lemma ExecutablePrefix(g: Graph, s: State, actions: seq<Action>, n: nat)
    requires Executable(g, s, actions) && n <= |actions|
    ensures Executable(g, s, actions[..n])
  {
    forall i | 0 <= i < n
      ensures Enabled(g, After(g, s, actions[..n][..i]), actions[..n][i])
    {
      assert actions[..n][..i] == actions[..i];
    }
  }

  // ------------------------------------------------------------------ stale selections

  /** A selection that is queued only after its node has run takes the completion back. */
  lemma StaleSelectionUndoesCompletion(n: NodeId)
    ensures var g: Graph := map[n := []];
            var s0 := State(map[], Queue([], []));
            var run := [Select([n])] + [PopOne] + [Finish(n)];
            && Initial(s0) && Executable(g, s0, run)
            && IsCompleted(After(g, s0, run).statuses, n)
            && !Grows(After(g, s0, run), Enqueue(After(g, s0, run), ReadyAmong(g, s0.statuses, [n])))
  {
    var g: Graph := map[n := []];
    var s0 := State(map[], Queue([], []));
    ReadySingleton(g, s0.statuses, n);
    EnqueueSingleton(s0, n);
    var s1 := Enqueue(s0, [n]);
    var s2 := s1.(queue := Queue([], [n]));
    assert [] + [Select([n])] == [Select([n])];
    AfterOneMore(g, s0, [], Select([n]));
    ExecutableOneMore(g, s0, [], Select([n]));
    AfterOneMore(g, s0, [Select([n])], PopOne);
    ExecutableOneMore(g, s0, [Select([n])], PopOne);
    assert After(g, s0, [Select([n])] + [PopOne]) == s2;
    AfterOneMore(g, s0, [Select([n])] + [PopOne], Finish(n));
    ExecutableOneMore(g, s0, [Select([n])] + [PopOne], Finish(n));
    EnqueueKeepsCompletedIff(Apply(g, s2, Finish(n)), [n]);
  }

  lemma ReadySingleton(g: Graph, statuses: StatusMap, n: NodeId)
    requires IsReady(g, statuses, n)
    ensures ReadyAmong(g, statuses, [n]) == [n]
  {
    assert [n][..0] == [];
  }

  lemma EnqueueSingleton(s: State, n: NodeId)
    ensures Enqueue(s, [n]) == State(s.statuses[n := READY], Pushed(s.queue, n))
  {
    var ids := [n];
    assert ids[..|ids| - 1] == [];
    assert MarkAll(s.statuses, ids, READY) == s.statuses[n := READY];
    assert PushAll(s.queue, ids) == Pushed(s.queue, n);
  }

  lemma SelectKeeps(g: Graph, s: State, order: seq<NodeId>)
    requires Safe(g, s) && IsTopoOrder(g, order)
    ensures Safe(g, Apply(g, s, Select(order))) && Grows(s, Apply(g, s, Select(order)))
  {
    var ready := ReadyAmong(g, s.statuses, order);
    ReadyAmongExact(g, s.statuses, order);
    EnqueueKeepsCompletedIff(s, ready);
    MarkAllExact(s.statuses, ready, READY);
    PushAllExact(s.queue, ready);
    var t := Apply(g, s, Select(order));
    assert forall v :: IsCompleted(t.statuses, v) <==> IsCompleted(s.statuses, v);
    forall v | v in t.queue.waiting || v in t.queue.processing
      ensures Launchable(g, t, v)
    {
      if v !in ready {
        assert Launchable(g, s, v);
      }
    }
  }

  lemma StepKeeps(g: Graph, s: State, a: Action)
    requires Safe(g, s) && Enabled(g, s, a)
    ensures Safe(g, Apply(g, s, a)) && Grows(s, Apply(g, s, a))
  {
    match a
    case Select(order) => SelectKeeps(g, s, order);
    case PopOne => PopKeeps(g, s);
    case Finish(id) => FinishKeeps(g, s, id);
  }

  lemma PopKeeps(g: Graph, s: State)
    requires Safe(g, s)
    ensures Safe(g, Apply(g, s, PopOne)) && Grows(s, Apply(g, s, PopOne))
  {
    var t := Apply(g, s, PopOne);
    forall v | v in t.queue.waiting || v in t.queue.processing
      ensures Launchable(g, t, v)
    {
      assert v in s.queue.waiting || v in s.queue.processing;
      assert Launchable(g, s, v);
    }
  }

  lemma FinishKeeps(g: Graph, s: State, id: NodeId)
    requires Safe(g, s) && id in s.queue.processing
    ensures Safe(g, Apply(g, s, Finish(id))) && Grows(s, Apply(g, s, Finish(id)))
  {
    var t := Apply(g, s, Finish(id));
    WithoutShrinks(s.queue.processing, id);
    assert Launchable(g, s, id);
    assert forall v :: IsCompleted(t.statuses, v) <==> IsCompleted(s.statuses, v) || v == id;
    forall v | v in t.queue.waiting || v in t.queue.processing
      ensures Launchable(g, t, v)
    {
      assert Launchable(g, s, v);
    }
  }

  /**
   In every state reachable by any interleaving of the three steps, completions are closed under dependencies,
   whatever is queued waits for nothing, and no completion of the start state is ever lost.
   */
  lemma {:induction false} ReachableSafe(g: Graph, s: State, actions: seq<Action>)
    requires Safe(g, s) && Executable(g, s, actions)
    ensures Safe(g, After(g, s, actions)) && Grows(s, After(g, s, actions))
    decreases |actions|
  {
    if actions != [] {
      var rest := actions[..|actions| - 1];
      ExecutablePrefix(g, s, actions, |actions| - 1);
      ReachableSafe(g, s, rest);
      StepKeeps(g, After(g, s, rest), actions[|actions| - 1]);
    }
  }

  lemma ExecutableParts(g: Graph, s: State, a: seq<Action>, b: seq<Action>)
    requires Executable(g, s, a + b)
    ensures Executable(g, s, a) && Executable(g, After(g, s, a), b)
  {
    assert (a + b)[..|a|] == a;
    ExecutablePrefix(g, s, a + b, |a|);
    forall i | 0 <= i < |b|
      ensures Enabled(g, After(g, After(g, s, a), b[..i]), b[i])
    {
      AfterConcat(g, s, a, b[..i]);
      assert (a + b)[..|a| + i] == a + b[..i];
      assert (a + b)[|a| + i] == b[i];
    }
  }

  /** Of any two moments of one run, the later one has at least the completions of the earlier one. */
  lemma {:induction false} CompletedOnlyGrows(g: Graph, s: State, earlier: seq<Action>, later: seq<Action>)
    requires Safe(g, s) && Executable(g, s, earlier + later)
    ensures Grows(After(g, s, earlier), After(g, s, earlier + later))
  {
    ExecutableParts(g, s, earlier, later);
    ReachableSafe(g, s, earlier);
    ReachableSafe(g, After(g, s, earlier), later);
    AfterConcat(g, s, earlier, later);
  }

  /** In a safe state no ready node is an ancestor of another ready node. */
  lemma ReadyAntichain(g: Graph, s: State, a: NodeId, b: NodeId)
    requires Safe(g, s) && IsReady(g, s.statuses, a) && IsReady(g, s.statuses, b)
    ensures !Ancestor(g, a, b)
  {
    if p :| WalkFrom(g, b, p) && |p| >= 2 && p[|p| - 1] == a {
      FirstStep(g, p);
      SliceOfWalk(g, p, 1, |p|);
      assert p[1..][|p| - 2] == a;
      CompletedAncestors(g, s, p[1..]);
    }
  }

  lemma {:induction false} CompletedAncestors(g: Graph, s: State, p: seq<NodeId>)
    requires Safe(g, s) && IsWalk(g, p) && IsCompleted(s.statuses, p[0])
    ensures IsCompleted(s.statuses, p[|p| - 1])
    decreases |p|
  {
    if |p| > 1 {
      FirstStep(g, p);
      SliceOfWalk(g, p, 1, |p|);
      CompletedAncestors(g, s, p[1..]);
    }
  }

  /**
   From an initial state, whatever the three steps do in whatever order: completions are closed under
   dependencies, everything queued waits for nothing, and the ready nodes are pairwise unrelated.
   */
  lemma {:induction false} EveryRunIsSafe(g: Graph, s: State, actions: seq<Action>)
    requires Initial(s) && Executable(g, s, actions)
    ensures Safe(g, After(g, s, actions))
    ensures var t := After(g, s, actions);
            forall a, b :: IsReady(g, t.statuses, a) && IsReady(g, t.statuses, b) ==> !Ancestor(g, a, b)
  {
    InitialIsSafe(g, s);
    ReachableSafe(g, s, actions);
    var t := After(g, s, actions);
    forall a, b | IsReady(g, t.statuses, a) && IsReady(g, t.statuses, b)
      ensures !Ancestor(g, a, b)
    {
      ReadyAntichain(g, t, a, b);
    }
  }
}
