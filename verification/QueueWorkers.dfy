/**
 The worker that queues selected nodes and records completions
 (src/qmtl/dag_manager/core/queue_worker.py), and what its calls do to the protocol state.
 */
module QueueWorkers {
  import opened Outcomes
  import opened Sequences
  import opened Graphs
  import opened GraphBuilding
  import opened Pipelines
  import opened ReadySelection
  import opened WorkQueues
  import opened Protocol

  /** The three callbacks are the push and complete operations of one repository and the update of one board. */
  class QueueWorker {
    const repository: RedisQueueRepository
    const board: StatusBoard

    constructor (repository: RedisQueueRepository, board: StatusBoard)
      ensures this.repository == repository && this.board == board
    {
      this.repository := repository;
      this.board := board;
    }

    function Current(): State
      reads repository, board
    {
      State(board.statuses, repository.Lists())
    }

    method EnqueueReadyNodes(ready: seq<DataNode>) returns (queued: seq<DataNode>)
      modifies repository`queue, board
      ensures queued == ready
      ensures Current() == Enqueue(old(Current()), Ids(ready))
      ensures |repository.queue| == |ready| + |old(repository.queue)|
      ensures forall i :: 0 <= i < |ready| ==> repository.queue[|ready| - 1 - i] == ready[i].id
      ensures repository.queue[|ready|..] == old(repository.queue)
      ensures forall n :: n in ready ==> n.id in board.statuses && board.statuses[n.id] == READY
      ensures forall v :: v !in Ids(ready) ==>
                (v in board.statuses <==> v in old(board.statuses))
                && (v in board.statuses ==> board.statuses[v] == old(board.statuses)[v])
    {
      var ids := Ids(ready);
      for i := 0 to |ready|
        invariant Current() == Enqueue(old(Current()), ids[..i])
      {
        TakeOneMore(ids, i);
        assert ids[..i + 1][..i] == ids[..i];
        repository.Push(ready[i].id);
        board.Update(ready[i].id, READY);
      }
      assert ids[..|ids|] == ids;
      MarkAllExact(old(board.statuses), ids, READY);
      PushAllReverses(old(repository.Lists()), ids);
      forall n | n in ready
        ensures n.id in ids
      {
        var i :| 0 <= i < |ready| && ready[i] == n;
        assert ids[i] == n.id;
      }
      forall i | 0 <= i < |ready|
        ensures repository.queue[|ready| - 1 - i] == ready[i].id
      {
        assert Reversed(ids)[|ids| - 1 - i] == ids[i];
      }
      return ready;
    }

    /** The status is written before the processing list is looked at, so it changes even for an unknown id. */
    method CompleteNode(id: NodeId, result: Value, now: int, ttl: int) returns (done: bool)
      modifies repository`processing, repository`results, repository`resultsExpireAt, board
      ensures done <==> id in old(repository.processing)
      ensures Current() == State(old(board.statuses)[id := COMPLETED], Removed(old(repository.Lists()), id))
    {
      board.Update(id, COMPLETED);
      done := repository.Complete(id, result, now, ttl);
    }
  }

  /** Selecting from the board and queueing at once is the select step of the protocol. */
  method SelectAndEnqueue(selector: ReadyNodeSelector, worker: QueueWorker) returns (error: Option<SortError>)
    requires DistinctIds(selector.nodes) && selector.builder.nodes == selector.nodes
    requires worker.board == selector.board
    modifies worker.repository`queue, worker.board
    ensures error.None? <==> Sortable(GraphOf(selector.nodes))
    ensures error.Some? ==> worker.Current() == old(worker.Current())
    ensures error.None? ==> exists order ::
              && IsTopoOrder(GraphOf(selector.nodes), order)
              && worker.Current() == Apply(GraphOf(selector.nodes), old(worker.Current()), Select(order))
  {
    var selected := selector.GetReadyNodes();
    if selected.Err? {
      return Some(selected.error);
    }
    EdgesMapDistinct(selector.nodes);
    var queued := worker.EnqueueReadyNodes(selected.value);
    return None;
  }

  /** Completing an id that is not being processed keeps the state safe exactly when nothing it needs is unfinished. */
  lemma UnsolicitedCompletion(g: Graph, s: State, id: NodeId)
    requires Safe(g, s) && id !in s.queue.processing
    ensures var t := State(s.statuses[id := COMPLETED], Removed(s.queue, id));
            Safe(g, t) <==> forall d :: d in Deps(g, id) && d != id ==> IsCompleted(s.statuses, d)
  {
    var t := State(s.statuses[id := COMPLETED], Removed(s.queue, id));
    WithoutShrinks(s.queue.processing, id);
    assert forall v :: IsCompleted(t.statuses, v) <==> IsCompleted(s.statuses, v) || v == id;
    if forall d :: d in Deps(g, id) && d != id ==> IsCompleted(s.statuses, d) {
      forall v | v in t.queue.waiting || v in t.queue.processing
        ensures Launchable(g, t, v)
      {
        assert Launchable(g, s, v);
      }
    }
  }

  /** Both sides occur: completing `b` before its dependency `a` leaves the initial state for an unsafe one. */
  lemma CompletedTooEarly(a: NodeId, b: NodeId)
    requires a != b
    ensures var g, s := map[a := [], b := [a]], State(map[], Queue([], []));
            && Sortable(g) && Initial(s) && Safe(g, s)
            && Safe(g, State(s.statuses[a := COMPLETED], Removed(s.queue, a)))
            && !Safe(g, State(s.statuses[b := COMPLETED], Removed(s.queue, b)))
  {
    var g, s := map[a := [], b := [a]], State(map[], Queue([], []));
    assert [a, b][..1] == [a];
    TopoOrderSortable(g, [a, b]);
    InitialIsSafe(g, s);
    UnsolicitedCompletion(g, s, a);
    UnsolicitedCompletion(g, s, b);
    assert a in Deps(g, b) && !IsCompleted(s.statuses, a);
  }
}
