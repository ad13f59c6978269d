/**
 The level of a node: the length of its longest dependency chain.
 Levels exist for exactly the nodes whose chains are bounded; in a graph without
 cycles that is every node, and recursion over dependencies terminates by level.
 */
module Levels {
  import opened Sequences
  import opened Graphs

  /** `k` is the number of edges of a longest walk from `v`. */
  ghost predicate IsLevel(g: Graph, v: NodeId, k: nat) {
    (exists p :: WalkFrom(g, v, p) && |p| == k + 1)
    && forall p :: WalkFrom(g, v, p) ==> |p| <= k + 1
  }

  ghost predicate HasLevel(g: Graph, v: NodeId) {
    exists k :: IsLevel(g, v, k)
  }

  /** The level of `v`, or 0 if its chains are unbounded. */
  ghost function Level(g: Graph, v: NodeId): (k: nat)
    ensures HasLevel(g, v) ==> IsLevel(g, v, k)
  {
    if HasLevel(g, v) then
      var k: nat :| IsLevel(g, v, k); k
    else
      0
  }

  lemma LevelIs(g: Graph, v: NodeId, k: nat)
    requires IsLevel(g, v, k)
    ensures HasLevel(g, v) && Level(g, v) == k
  {
    var m := Level(g, v);
    var p :| WalkFrom(g, v, p) && |p| == k + 1;
    var q :| WalkFrom(g, v, q) && |q| == m + 1;
  }

  /** Bounded chains have a longest one. */
  lemma {:induction false} BoundedHasLevel(g: Graph, v: NodeId, n: nat)
    requires forall p :: WalkFrom(g, v, p) ==> |p| <= n + 1
    ensures HasLevel(g, v) && Level(g, v) <= n
  {
    if exists p :: WalkFrom(g, v, p) && |p| == n + 1 {
      assert IsLevel(g, v, n);
      LevelIs(g, v, n);
    } else {
      assert WalkFrom(g, v, [v]);
      BoundedHasLevel(g, v, n - 1);
    }
  }

  lemma PrependWalk(g: Graph, v: NodeId, p: seq<NodeId>)
    requires IsWalk(g, p) && p[0] in Deps(g, v)
    ensures WalkFrom(g, v, [v] + p)
  {
    assert IsWalk(g, [v]);
    JoinWalks(g, [v], p);
  }

  /** A dependency has a level whenever its dependent has, and a smaller one. */
  lemma DependencyLevel(g: Graph, v: NodeId, d: NodeId)
    requires HasLevel(g, v) && d in Deps(g, v)
    ensures HasLevel(g, d) && Level(g, d) < Level(g, v)
  {
    var k := Level(g, v);
    forall p | WalkFrom(g, d, p)
      ensures |p| <= k
    {
      PrependWalk(g, v, p);
      assert |[v] + p| <= k + 1;
    }
    assert WalkFrom(g, d, [d]);
    BoundedHasLevel(g, d, k - 1);
  }

  lemma LeafLevel(g: Graph, v: NodeId)
    requires Deps(g, v) == []
    ensures HasLevel(g, v) && Level(g, v) == 0
  {
    forall p | WalkFrom(g, v, p)
      ensures |p| <= 1
    {
      if |p| > 1 {
        FirstStep(g, p);
      }
    }
    BoundedHasLevel(g, v, 0);
  }

  /** Some dependency of `v` is exactly one level below it. */
  lemma DeepestDependency(g: Graph, v: NodeId) returns (d: NodeId)
    requires HasLevel(g, v) && Deps(g, v) != []
    ensures d in Deps(g, v) && HasLevel(g, d) && Level(g, v) == Level(g, d) + 1
  {
    var k := Level(g, v);
    DependencyLevel(g, v, Deps(g, v)[0]);
    var p :| WalkFrom(g, v, p) && |p| == k + 1;
    FirstStep(g, p);
    d := p[1];
    DependencyLevel(g, v, d);
    SliceOfWalk(g, p, 1, |p|);
    assert WalkFrom(g, d, p[1..]);
  }

  /** If every dependency has a level of at most `n`, the node has one of at most `n + 1`. */
  lemma LevelAbove(g: Graph, v: NodeId, n: nat)
    requires forall d :: d in Deps(g, v) ==> HasLevel(g, d) && Level(g, d) <= n
    ensures HasLevel(g, v) && Level(g, v) <= n + 1
  {
    forall p | WalkFrom(g, v, p)
      ensures |p| <= n + 2
    {
      if |p| > 1 {
        FirstStep(g, p);
        SliceOfWalk(g, p, 1, |p|);
        assert WalkFrom(g, p[1], p[1..]);
      }
    }
    BoundedHasLevel(g, v, n + 1);
  }

  lemma AcyclicHasLevel(g: Graph, v: NodeId)
    requires Acyclic(g)
    ensures HasLevel(g, v)
  {
    forall p | WalkFrom(g, v, p)
      ensures |p| <= |g| + 1
    {
      AcyclicWalkDistinct(g, p);
      if |p| > 1 {
        var q := p[..|p| - 1];
        forall x | x in q
          ensures x in g.Keys
        {
          var i :| 0 <= i < |q| && q[i] == x;
          assert p[i + 1] in Deps(g, p[i]);
        }
        CoversByLength(q, g.Keys);
      }
    }
    BoundedHasLevel(g, v, |g|);
  }

  /** Recursion over the dependencies of a sortable graph goes down the levels. */
  lemma DependenciesBelow(g: Graph, v: NodeId)
    requires Sortable(g) && v in g
    ensures forall d :: d in g[v] ==> d in g && Level(g, d) < Level(g, v)
  {
    AcyclicHasLevel(g, v);
    forall d | d in g[v]
      ensures Level(g, d) < Level(g, v)
    {
      DependencyLevel(g, v, d);
    }
  }

  /** Every element of a grounded order has a level. */
  lemma {:induction false} GroundedHasLevel(g: Graph, order: seq<NodeId>, i: nat)
    requires Grounded(g, order) && i < |order|
    ensures HasLevel(g, order[i])
  {
    forall p | WalkFrom(g, order[i], p)
      ensures |p| <= i + 1
    {
      GroundedWalkShort(g, order, i, p);
    }
    BoundedHasLevel(g, order[i], i);
  }

  lemma {:induction false} GroundedWalkShort(g: Graph, order: seq<NodeId>, i: nat, p: seq<NodeId>)
    requires Grounded(g, order) && i < |order| && WalkFrom(g, order[i], p)
    ensures |p| <= i + 1
    decreases i
  {
    if |p| > 1 {
      FirstStep(g, p);
      var j :| 0 <= j < i && order[j] == p[1];
      SliceOfWalk(g, p, 1, |p|);
      GroundedWalkShort(g, order, j, p[1..]);
    }
  }

  /** Levels never decrease along `order`. */
  ghost predicate LevelSorted(g: Graph, order: seq<NodeId>) {
    forall i, j :: 0 <= i < j < |order| ==> Level(g, order[i]) <= Level(g, order[j])
  }

  /** While something is unfinished, some unfinished node has only finished dependencies. */
  lemma {:induction false} UnfinishedMinimum(g: Graph, done: set<NodeId>) returns (v: NodeId)
    requires Sortable(g) && exists x :: x in g && x !in done
    ensures v in g && v !in done && forall d :: d in g[v] ==> d in done
  {
    var x :| x in g && x !in done;
    v := MinimumBelow(g, done, x);
  }

  /** Walking down from an unfinished node reaches one whose dependencies are all finished. */
  lemma {:induction false} MinimumBelow(g: Graph, done: set<NodeId>, x: NodeId) returns (v: NodeId)
    requires Sortable(g) && x in g && x !in done
    ensures v in g && v !in done && forall d :: d in g[v] ==> d in done
    decreases Level(g, x)
  {
    if d :| d in g[x] && d !in done {
      AcyclicHasLevel(g, x);
      DependencyLevel(g, x, d);
      v := MinimumBelow(g, done, d);
    } else {
      v := x;
    }
  }
}
