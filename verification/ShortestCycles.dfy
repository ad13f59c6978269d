/**
 Why the breadth-first search of `_find_cycle_path` yields a shortest cycle
 (src/qmtl/dag_manager/strategy/dag_service.py:95-125).
 */
module ShortestCycles {
  import opened Outcomes
  import opened Sequences
  import opened Graphs

  /** A cycle through its first node: inner nodes distinct, and no closed walk through that node shorter. */
  ghost predicate ShortestCycle(g: Graph, p: seq<NodeId>) {
    && ClosedWalk(g, p)
    && Distinct(p[..|p| - 1])
    && forall q :: ClosedWalk(g, q) && q[0] == p[0] ==> |p| <= |q|
  }

  /** The ids a search can ever meet. */
  ghost function Universe(g: Graph): set<NodeId> {
    g.Keys + set v, d | v in g && d in g[v] :: d
  }

  lemma DepsInUniverse(g: Graph, v: NodeId)
    ensures forall d :: d in Deps(g, v) ==> d in Universe(g)
  {
  }

  /** Parent pointers lead back to `start`, one dependency edge and one unit of distance at a time. */
  ghost predicate Tree(g: Graph, start: NodeId, parent: map<NodeId, Option<NodeId>>, dist: map<NodeId, nat>) {
    && parent.Keys == dist.Keys
    && start in dist && dist[start] == 0
    && forall v :: v in parent && v != start ==>
         && parent[v].Some? && parent[v].value in dist
         && dist[v] == dist[parent[v].value] + 1
         && v in Deps(g, parent[v].value)
  }

  ghost predicate Scanned(g: Graph, start: NodeId, dist: map<NodeId, nat>, u: NodeId, d: NodeId) {
    d in dist && d != start && u in dist && dist[d] <= dist[u] + 1
  }

  /** `done` nodes are expanded, `queue` nodes wait in order of distance. */
  ghost predicate Frontier(g: Graph, start: NodeId, dist: map<NodeId, nat>, done: set<NodeId>, queue: seq<NodeId>) {
    && start in dist && dist[start] == 0
    && dist.Keys == done + Elements(queue) && done !! Elements(queue) && Distinct(queue)
    && (forall i, j :: 0 <= i < j < |queue| ==> dist[queue[i]] <= dist[queue[j]] <= dist[queue[i]] + 1)
    && (forall u, x :: u in done && x in queue ==> dist[u] <= dist[x])
    && (forall u, d :: u in done && d in Deps(g, u) ==> Scanned(g, start, dist, u, d))
  }

  /** The same while `cur` is being expanded and the dependencies in `rest` are still to be looked at. */
  ghost predicate Expanding(g: Graph, start: NodeId, dist: map<NodeId, nat>, done: set<NodeId>,
                            cur: NodeId, rest: seq<NodeId>, queue: seq<NodeId>)
  {
    && start in dist && dist[start] == 0
    && dist.Keys == done + {cur} + Elements(queue) && done !! Elements(queue) && Distinct(queue)
    && cur !in done && cur !in queue
    && (forall i, j :: 0 <= i < j < |queue| ==> dist[queue[i]] <= dist[queue[j]])
    && (forall x :: x in queue ==> dist[cur] <= dist[x] <= dist[cur] + 1)
    && (forall u :: u in done ==> dist[u] <= dist[cur])
    && (forall u, d :: u in done && d in Deps(g, u) ==> Scanned(g, start, dist, u, d))
    && (forall d :: d in Deps(g, cur) ==> d in rest || Scanned(g, start, dist, cur, d))
  }

  lemma BeginExpanding(g: Graph, start: NodeId, dist: map<NodeId, nat>, done: set<NodeId>, queue: seq<NodeId>)
    requires Frontier(g, start, dist, done, queue) && queue != []
    ensures Expanding(g, start, dist, done, queue[0], Deps(g, queue[0]), queue[1..])
  {
    ElementsOfTail(queue);
  }

  lemma EndExpanding(g: Graph, start: NodeId, dist: map<NodeId, nat>, done: set<NodeId>, cur: NodeId,
                     queue: seq<NodeId>)
    requires Expanding(g, start, dist, done, cur, [], queue)
    ensures Frontier(g, start, dist, done + {cur}, queue)
  {
  }

  lemma SkipVisited(g: Graph, start: NodeId, dist: map<NodeId, nat>, done: set<NodeId>, cur: NodeId,
                    rest: seq<NodeId>, queue: seq<NodeId>)
    requires Expanding(g, start, dist, done, cur, rest, queue) && rest != []
    requires rest[0] != start && rest[0] in dist
    ensures Expanding(g, start, dist, done, cur, rest[1..], queue)
  {
    assert rest == [rest[0]] + rest[1..];
  }

  lemma VisitNew(g: Graph, start: NodeId, dist: map<NodeId, nat>, done: set<NodeId>, cur: NodeId,
                 rest: seq<NodeId>, queue: seq<NodeId>)
    requires Expanding(g, start, dist, done, cur, rest, queue) && rest != []
    requires rest[0] !in dist
    ensures Expanding(g, start, dist[rest[0] := dist[cur] + 1], done, cur, rest[1..], queue + [rest[0]])
  {
    assert rest == [rest[0]] + rest[1..];
    var n := rest[0];
    assert Elements(queue + [n]) == Elements(queue) + {n};
    var dist' := dist[n := dist[cur] + 1];
    assert forall x :: x in dist ==> dist'[x] == dist[x];
    forall u, d | u in done && d in Deps(g, u)
      ensures Scanned(g, start, dist', u, d)
    {
      assert Scanned(g, start, dist, u, d);
    }
    forall d | d in Deps(g, cur)
      ensures d in rest[1..] || Scanned(g, start, dist', cur, d)
    {
      assert d in rest || Scanned(g, start, dist, cur, d);
    }
  }

  lemma TreeGrows(g: Graph, start: NodeId, parent: map<NodeId, Option<NodeId>>, dist: map<NodeId, nat>,
                  cur: NodeId, n: NodeId)
    requires Tree(g, start, parent, dist) && cur in dist && n !in dist && n in Deps(g, cur)
    ensures Tree(g, start, parent[n := Some(cur)], dist[n := dist[cur] + 1])
  {
  }

  /** Whatever a walk from `start` reaches in fewer steps than the distance of `cur` has been expanded. */
  lemma {:induction false} NearIsDone(g: Graph, start: NodeId, dist: map<NodeId, nat>, done: set<NodeId>,
                                      cur: NodeId, rest: seq<NodeId>, queue: seq<NodeId>, q: seq<NodeId>, j: nat)
    requires Expanding(g, start, dist, done, cur, rest, queue)
    requires WalkFrom(g, start, q) && j < |q| && j < dist[cur]
    ensures q[j] in done && dist[q[j]] <= j
  {
    if j > 0 {
      NearIsDone(g, start, dist, done, cur, rest, queue, q, j - 1);
      assert q[j - 1 + 1] in Deps(g, q[j - 1]);
      assert Scanned(g, start, dist, q[j - 1], q[j]);
    }
    assert q[j] in dist;
    assert q[j] !in queue && q[j] != cur;
  }

  /** Meeting `start` again while expanding `cur` closes a cycle no closed walk undercuts. */
  lemma ClosingIsShortest(g: Graph, start: NodeId, dist: map<NodeId, nat>, done: set<NodeId>,
                          cur: NodeId, rest: seq<NodeId>, queue: seq<NodeId>, q: seq<NodeId>)
    requires Expanding(g, start, dist, done, cur, rest, queue)
    requires ClosedWalk(g, q) && q[0] == start
    ensures dist[cur] + 2 <= |q|
  {
    var m := |q| - 2;
    if m < dist[cur] {
      assert q[m + 1] in Deps(g, q[m]);
      NearIsDone(g, start, dist, done, cur, rest, queue, q, m);
    }
  }

  lemma {:induction false} ExhaustedIsDone(g: Graph, start: NodeId, dist: map<NodeId, nat>, done: set<NodeId>,
                                           q: seq<NodeId>, j: nat)
    requires Frontier(g, start, dist, done, []) && WalkFrom(g, start, q) && j < |q|
    ensures q[j] in done
  {
    if j > 0 {
      ExhaustedIsDone(g, start, dist, done, q, j - 1);
      assert q[j - 1 + 1] in Deps(g, q[j - 1]);
      assert Scanned(g, start, dist, q[j - 1], q[j]);
    }
  }

  /** An empty queue means that `start` lies on no cycle. */
  lemma Exhausted(g: Graph, start: NodeId, dist: map<NodeId, nat>, done: set<NodeId>)
    requires Frontier(g, start, dist, done, [])
    ensures !OnCycle(g, start)
  {
    if q :| ClosedWalk(g, q) && q[0] == start {
      var m := |q| - 2;
      assert q[m + 1] in Deps(g, q[m]);
      ExhaustedIsDone(g, start, dist, done, q, m);
    }
  }

  // --------------------------------------------------------- reading the path back

  /** `tail` leads from a dependency of `cur` back to `start`, moving away from `start` until its last step. */
  ghost predicate Tail(g: Graph, start: NodeId, dist: map<NodeId, nat>, cur: NodeId, tail: seq<NodeId>) {
    && cur in dist && |tail| >= 1 && tail[|tail| - 1] == start
    && IsWalk(g, [cur] + tail)
    && (forall i :: 0 <= i < |tail| - 1 ==> tail[i] in dist && dist[cur] < dist[tail[i]])
    && (forall i, j :: 0 <= i < j < |tail| - 1 ==> tail[i] in dist && tail[j] in dist && dist[tail[i]] < dist[tail[j]])
  }

  lemma StepBack(g: Graph, start: NodeId, parent: map<NodeId, Option<NodeId>>, dist: map<NodeId, nat>,
                 cur: NodeId, tail: seq<NodeId>)
    requires Tree(g, start, parent, dist) && Tail(g, start, dist, cur, tail) && cur != start
    ensures parent[cur].Some? && Tail(g, start, dist, parent[cur].value, [cur] + tail)
  {
    var up := parent[cur].value;
    assert IsWalk(g, [up]);
    JoinWalks(g, [up], [cur] + tail);
    assert [up] + ([cur] + tail) == [up, cur] + tail;
    assert [up] + [cur] + tail == [up, cur] + tail;
  }

  lemma TailCloses(g: Graph, start: NodeId, dist: map<NodeId, nat>, tail: seq<NodeId>)
    requires start in dist && dist[start] == 0 && Tail(g, start, dist, start, tail)
    ensures ClosedWalk(g, [start] + tail) && Distinct(([start] + tail)[..|tail|])
  {
    var p := [start] + tail;
    var inner := p[..|tail|];
    forall i, j | 0 <= i < j < |inner|
      ensures inner[i] != inner[j]
    {
      assert inner[j] == tail[j - 1];
      if i > 0 {
        assert inner[i] == tail[i - 1];
      }
    }
  }

  /** The path from `start` along dependencies to `last` and back to `start`, rebuilt from the parent pointers. */
  method ReadCycle(ghost g: Graph, start: NodeId, last: NodeId, parent: map<NodeId, Option<NodeId>>,
                   ghost dist: map<NodeId, nat>)
    returns (path: seq<NodeId>)
    requires Tree(g, start, parent, dist) && last in dist && start in Deps(g, last)
    ensures |path| == dist[last] + 2 && path[0] == start
    ensures ClosedWalk(g, path) && Distinct(path[..|path| - 1])
  {
    path := [start];
    var current := last;
    assert IsWalk(g, [last, start]) && [last] + Reversed(path) == [last, start];
    while current != start
      invariant path != [] && Tail(g, start, dist, current, Reversed(path))
      invariant |path| + dist[current] == 1 + dist[last]
      decreases dist[current]
    {
      StepBack(g, start, parent, dist, current, Reversed(path));
      ReversedAppend(path, current);
      path := path + [current];
      current := parent[current].value;
    }
    TailCloses(g, start, dist, Reversed(path));
    ReversedAppend(path, start);
    path := Reversed(path + [start]);
  }

  /** The loop over the dependencies of `current`: stop at `start`, otherwise queue what is new. */
  method ScanNeighbors(ghost g: Graph, start: NodeId, current: NodeId, neighbors: seq<NodeId>,
                       visited0: map<NodeId, Option<NodeId>>, queue0: seq<NodeId>,
                       ghost dist0: map<NodeId, nat>, ghost done: set<NodeId>)
    returns (closes: bool, visited: map<NodeId, Option<NodeId>>, queue: seq<NodeId>, ghost dist: map<NodeId, nat>)
    requires neighbors == Deps(g, current) && Tree(g, start, visited0, dist0)
    requires Expanding(g, start, dist0, done, current, neighbors, queue0)
    requires dist0.Keys <= Universe(g) + {start}
    ensures closes <==> start in neighbors
    ensures Tree(g, start, visited, dist) && current in dist && dist.Keys <= Universe(g) + {start}
    ensures closes ==> forall q :: ClosedWalk(g, q) && q[0] == start ==> dist[current] + 2 <= |q|
    ensures !closes ==> Expanding(g, start, dist, done, current, [], queue)
  {
    visited, queue, dist := visited0, queue0, dist0;
    DepsInUniverse(g, current);
    for j := 0 to |neighbors|
      invariant start !in neighbors[..j]
      invariant Tree(g, start, visited, dist) && dist.Keys <= Universe(g) + {start}
      invariant Expanding(g, start, dist, done, current, neighbors[j..], queue)
    {
      var neighbor := neighbors[j];
      TakeOneMore(neighbors, j);
      if neighbor == start {
        forall q | ClosedWalk(g, q) && q[0] == start
          ensures dist[current] + 2 <= |q|
        {
          ClosingIsShortest(g, start, dist, done, current, neighbors[j..], queue, q);
        }
        closes := true;
        return;
      }
      if neighbor !in visited {
        VisitNew(g, start, dist, done, current, neighbors[j..], queue);
        TreeGrows(g, start, visited, dist, current, neighbor);
        visited := visited[neighbor := Some(current)];
        dist := dist[neighbor := dist[current] + 1];
        queue := queue + [neighbor];
      } else {
        SkipVisited(g, start, dist, done, current, neighbors[j..], queue);
      }
    }
    assert neighbors[..|neighbors|] == neighbors;
    closes := false;
  }
}
