/**
 The Redis work queue (src/qmtl/dag_manager/core/queue_repository.py): two lists, new
 items entering at the left of one and moving from its right end to the left of the other,
 and a hash of results with one common expiry.
 */
module WorkQueues {
  import opened Outcomes
  import opened Sequences
  import opened Graphs
  import opened Pipelines

  datatype Queue = Queue(waiting: seq<NodeId>, processing: seq<NodeId>)

  /** LPUSH */
  function Pushed(q: Queue, item: NodeId): Queue {
    q.(waiting := [item] + q.waiting)
  }

  /** BRPOPLPUSH, when something is waiting. */
  function Popped(q: Queue): Queue {
    if q.waiting == [] then q
    else
      var n := |q.waiting| - 1;
      Queue(q.waiting[..n], [q.waiting[n]] + q.processing)
  }

  /** LREM with count 0: every copy goes. */
  function Without(s: seq<NodeId>, item: NodeId): seq<NodeId> {
    if s == [] then []
    else (if s[0] == item then [] else [s[0]]) + Without(s[1..], item)
  }

  function Removed(q: Queue, item: NodeId): Queue {
    q.(processing := Without(q.processing, item))
  }

  lemma {:induction false} WithoutCounts(s: seq<NodeId>, item: NodeId, x: NodeId)
    ensures multiset(Without(s, item))[x] == if x == item then 0 else multiset(s)[x]
  {
    if s != [] {
      WithoutCounts(s[1..], item, x);
      assert s == [s[0]] + s[1..];
      assert multiset(s)[x] == multiset([s[0]])[x] + multiset(s[1..])[x];
      assert multiset(Without(s, item))[x] ==
             multiset(if s[0] == item then [] else [s[0]])[x] + multiset(Without(s[1..], item))[x];
    }
  }

  lemma {:induction false} WithoutShrinks(s: seq<NodeId>, item: NodeId)
    ensures |Without(s, item)| <= |s|
    ensures |Without(s, item)| < |s| <==> item in s
    ensures forall x :: x in Without(s, item) <==> x in s && x != item
  {
    if s != [] {
      WithoutShrinks(s[1..], item);
    }
  }

  /** What stays keeps its order: removal treats every stretch of the list by itself. */
  lemma {:induction false} WithoutConcat(a: seq<NodeId>, b: seq<NodeId>, item: NodeId)
    ensures Without(a + b, item) == Without(a, item) + Without(b, item)
  {
    if a == [] {
      assert a + b == b;
    } else {
      WithoutConcat(a[1..], b, item);
      assert (a + b)[1..] == a[1..] + b && (a + b)[0] == a[0];
      SameFront(if a[0] == item then [] else [a[0]], Without(a[1..], item), Without(b, item));
    }
  }

  lemma SameFront(front: seq<NodeId>, a: seq<NodeId>, b: seq<NodeId>)
    ensures front + (a + b) == front + a + b
  {
  }

  lemma {:induction false} WithoutAbsent(s: seq<NodeId>, item: NodeId)
    requires item !in s
    ensures Without(s, item) == s
  {
    if s != [] {
      WithoutAbsent(s[1..], item);
      assert s == [s[0]] + s[1..];
    }
  }

  // -------------------------------------------------------------------- whole runs

  datatype QueueEvent = Push(item: NodeId) | Pop | Complete(item: NodeId)

  /** A queue together with everything that has entered and left it. */
  datatype History = History(queue: Queue, pushed: seq<NodeId>, popped: seq<NodeId>, removed: multiset<NodeId>)

  function Next(h: History, e: QueueEvent): History {
    match e
    case Push(item) => h.(queue := Pushed(h.queue, item), pushed := h.pushed + [item])
    case Pop =>
      if h.queue.waiting == [] then h
      else h.(queue := Popped(h.queue), popped := h.popped + [h.queue.waiting[|h.queue.waiting| - 1]])
    case Complete(item) =>
      h.(queue := Removed(h.queue, item),
         removed := h.removed + multiset(h.queue.processing) - multiset(Without(h.queue.processing, item)))
  }

  function Run(h: History, events: seq<QueueEvent>): History {
    if events == [] then h else Next(Run(h, events[..|events| - 1]), events[|events| - 1])
  }

  const NOTHING_QUEUED := History(Queue([], []), [], [], multiset{})

  /** Nothing is lost or reordered: what was popped, then what still waits from the right, is what was pushed. */
  ghost predicate Conserved(h: History) {
    && h.pushed == h.popped + Reversed(h.queue.waiting)
    && multiset(h.popped) == multiset(h.queue.processing) + h.removed
  }

  lemma PushConserves(h: History, item: NodeId)
    requires Conserved(h)
    ensures Conserved(Next(h, Push(item)))
  {
    ReversedPrepend(item, h.queue.waiting);
    assert h.popped + (Reversed(h.queue.waiting) + [item]) == h.popped + Reversed(h.queue.waiting) + [item];
  }

  lemma PopConserves(h: History)
    requires Conserved(h)
    ensures Conserved(Next(h, Pop))
  {
    var w := h.queue.waiting;
    if w != [] {
      var last := w[|w| - 1];
      SplitLast(w);
      ReversedAppend(w[..|w| - 1], last);
      assert h.popped + ([last] + Reversed(w[..|w| - 1])) == h.popped + [last] + Reversed(w[..|w| - 1]);
      assert multiset([last] + h.queue.processing) == multiset{last} + multiset(h.queue.processing);
    }
  }

  lemma CompleteConserves(h: History, item: NodeId)
    requires Conserved(h)
    ensures Conserved(Next(h, Complete(item)))
  {
    var p := h.queue.processing;
    assert multiset(Without(p, item)) <= multiset(p) by {
      forall x
        ensures multiset(Without(p, item))[x] <= multiset(p)[x]
      {
        WithoutCounts(p, item, x);
      }
    }
  }

  lemma ConservedStep(h: History, e: QueueEvent)
    requires Conserved(h)
    ensures Conserved(Next(h, e))
  {
    match e
    case Push(item) => PushConserves(h, item);
    case Pop => PopConserves(h);
    case Complete(item) => CompleteConserves(h, item);
  }

  /** In every run the queue is first-in first-out and conserves its items. */
  lemma {:induction false} RunConserves(events: seq<QueueEvent>)
    ensures var h := Run(NOTHING_QUEUED, events);
            && h.popped <= h.pushed
            && h.pushed == h.popped + Reversed(h.queue.waiting)
            && multiset(h.pushed) == multiset(h.queue.waiting) + multiset(h.queue.processing) + h.removed
  {
    RunKeepsConserved(events);
    var h := Run(NOTHING_QUEUED, events);
    ReversedMultiset(h.queue.waiting);
  }

  lemma {:induction false} RunKeepsConserved(events: seq<QueueEvent>)
    ensures Conserved(Run(NOTHING_QUEUED, events))
  {
    if events != [] {
      RunKeepsConserved(events[..|events| - 1]);
      ConservedStep(Run(NOTHING_QUEUED, events[..|events| - 1]), events[|events| - 1]);
    }
  }

  // ----------------------------------------------------------------- the repository

  datatype Payload = Payload(completedAt: int, result: Value)

  class RedisQueueRepository {
    var queue: seq<NodeId>
    var processing: seq<NodeId>
    var results: map<NodeId, Payload>
    var resultsExpireAt: int

    function Lists(): Queue
      reads this
    {
      Queue(queue, processing)
    }

    /** The result hash as a client sees it at time `now`. */
    function ResultsAt(now: int): map<NodeId, Payload>
      reads this
    {
      if now < resultsExpireAt then results else map[]
    }

    constructor ()
      ensures Lists() == Queue([], []) && forall t :: ResultsAt(t) == map[]
    {
      queue, processing, results, resultsExpireAt := [], [], map[], 0;
    }

    method Push(item: NodeId)
      modifies this`queue
      ensures Lists() == Pushed(old(Lists()), item) && queue == [item] + old(queue)
    {
      queue := [item] + queue;
    }

    /** Returns nothing when the queue stays empty until the timeout. */
    method Pop() returns (item: Option<NodeId>)
      modifies this`queue, this`processing
      ensures Lists() == Popped(old(Lists()))
      ensures item.None? <==> old(queue) == []
      ensures item.None? ==> queue == [] && processing == old(processing)
      ensures item.Some? ==> old(queue) == queue + [item.value] && processing == [item.value] + old(processing)
    {
      if queue == [] {
        return None;
      }
      var last := queue[|queue| - 1];
      queue := queue[..|queue| - 1];
      processing := [last] + processing;
      return Some(last);
    }

    /** True exactly when at least one copy was being processed; only then a result is stored. */
    method Complete(id: NodeId, result: Value, now: int, ttl: int) returns (done: bool)
      modifies this`processing, this`results, this`resultsExpireAt
      ensures Lists() == Removed(old(Lists()), id)
      ensures done <==> id in old(processing)
      ensures done ==> forall t :: now <= t < now + ttl ==>
                ResultsAt(t) == old(ResultsAt(now))[id := Payload(now, result)]
      ensures done ==> forall t :: now + ttl <= t ==> ResultsAt(t) == map[]
      ensures !done ==> forall t :: ResultsAt(t) == old(ResultsAt(t))
    {
      var rest := Without(processing, id);
      WithoutShrinks(processing, id);
      var removed := |processing| - |rest|;
      processing := rest;
      if removed == 0 {
        return false;
      }
      results := ResultsAt(now)[id := Payload(now, result)];
      resultsExpireAt := now + ttl;
      return true;
    }

    method GetResult(id: NodeId, now: int) returns (r: Option<Payload>)
      ensures r == if id in ResultsAt(now) then Some(ResultsAt(now)[id]) else None
    {
      if now < resultsExpireAt && id in results {
        return Some(results[id]);
      }
      return None;
    }
  }
}
