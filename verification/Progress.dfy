/**
 The progress percentage of a pipeline (src/qmtl/dag_manager/execution/status_service.py:151-223
 and 264-297), over exact reals: finished nodes count fully, running ones half, and the stored
 value is rounded half-to-even to one decimal.
 */
module Progress {
  import opened Outcomes
  import opened Sequences
  import opened Graphs
  import opened ReadySelection

  predicate IsFinished(s: Status) {
    s.COMPLETED? || s.FAILED?
  }

  function Finished(m: StatusMap): set<NodeId> {
    set v | v in m && IsFinished(m[v])
  }

  function Running(m: StatusMap): set<NodeId> {
    set v | v in m && m[v].RUNNING?
  }

  function Exact(m: StatusMap): real
    requires m != map[]
  {
    (|Finished(m)| as real + |Running(m)| as real * 0.5) / |m| as real * 100.0
  }

  /** Python's `round(x, 1)` on an exact number. */
  function RoundTenth(x: real): real {
    var n := (x * 10.0).Floor;
    var rest := x * 10.0 - n as real;
    (if rest < 0.5 || (rest == 0.5 && n % 2 == 0) then n as real else (n + 1) as real) / 10.0
  }

  // ------------------------------------------------------------------------ rounding

  /** The stored value is within 0.05 of the exact one, and rounding keeps the order. */
  lemma RoundTenthClose(x: real)
    ensures -0.05 <= RoundTenth(x) - x <= 0.05
  {
  }

  /** The stored value is a whole number of tenths, and an even one when two are equally near. */
  lemma RoundTenthExact(x: real)
    ensures RoundTenth(x) * 10.0 == (RoundTenth(x) * 10.0).Floor as real
    ensures RoundTenth(x) - x == 0.05 || x - RoundTenth(x) == 0.05 ==> (RoundTenth(x) * 10.0).Floor % 2 == 0
  {
    var n := (x * 10.0).Floor;
    assert RoundTenth(x) * 10.0 == n as real || RoundTenth(x) * 10.0 == (n + 1) as real;
  }

  lemma RoundTenthMonotone(x: real, y: real)
    requires x <= y
    ensures RoundTenth(x) <= RoundTenth(y)
  {
    var m, n := (x * 10.0).Floor, (y * 10.0).Floor;
    assert m <= n;
    if m < n {
      assert RoundTenth(x) <= (m + 1) as real / 10.0 <= n as real / 10.0 <= RoundTenth(y);
    }
  }

  lemma RoundsToHundred(x: real)
    requires x <= 100.0
    ensures RoundTenth(x) == 100.0 <==> x >= 99.95
  {
    if x == 100.0 {
      assert (x * 10.0).Floor == 1000;
    } else if x >= 99.95 {
      assert (x * 10.0).Floor == 999;
    } else {
      RoundTenthMonotone(x, 99.95);
      var n := (x * 10.0).Floor;
      assert n <= 999;
    }
  }

  // ---------------------------------------------------------------------- percentage

  /** Twice the number of unfinished nodes, less the running ones: the half-points still missing. */
  function Shortfall(m: StatusMap): int {
    2 * (|m| - |Finished(m)|) - |Running(m)|
  }

  lemma Counts(m: StatusMap)
    ensures 0 <= |Running(m)| && |Finished(m)| + |Running(m)| <= |m|
    ensures Shortfall(m) >= 0
    ensures Shortfall(m) == 0 <==> forall v :: v in m ==> IsFinished(m[v])
  {
    var f, r := Finished(m), Running(m);
    assert f !! r && f + r <= m.Keys;
    SubsetCard(f + r, m.Keys);
    SubsetCard(f, m.Keys);
    assert |f + r| == |f| + |r|;
    if Shortfall(m) == 0 {
      assert f == m.Keys;
    }
    if forall v :: v in m ==> IsFinished(m[v]) {
      assert f == m.Keys && r == {};
    }
  }

  lemma CountedStatuses(m: StatusMap)
    ensures Finished(m) == set v | v in m && (m[v] == COMPLETED || m[v] == FAILED)
    ensures Running(m) == set v | v in m && m[v] == RUNNING
  {
  }

  /** A node counts fully once it is COMPLETED or FAILED, half while it is RUNNING, and not before. */
  lemma ExactCounts(m: StatusMap)
    requires m != map[]
    ensures var done := set v | v in m && (m[v] == COMPLETED || m[v] == FAILED);
            var running := set v | v in m && m[v] == RUNNING;
            Exact(m) * (2 * |m|) as real == 100.0 * (2 * |done| + |running|) as real
  {
    CountedStatuses(m);
    ExactFromShortfall(m);
  }

  lemma ExactFromShortfall(m: StatusMap)
    requires m != map[]
    ensures Exact(m) * |m| as real == 100.0 * |m| as real - 50.0 * Shortfall(m) as real
  {
    var n := |m| as real;
    var points := |Finished(m)| as real + |Running(m)| as real * 0.5;
    assert n > 0.0;
    assert points / n * 100.0 * n == points * 100.0;
  }

  /** Exact progress is a percentage, and full only when every node is finished. */
  lemma ExactInRange(m: StatusMap)
    requires m != map[]
    ensures 0.0 <= Exact(m) <= 100.0
    ensures Exact(m) == 100.0 <==> forall v :: v in m ==> m[v] == COMPLETED || m[v] == FAILED
  {
    Counts(m);
    ExactFromShortfall(m);
    assert |m| > 0 && 0 <= Shortfall(m) <= 2 * |m|;
    InRange(Exact(m), |m| as real, Shortfall(m) as real);
  }

  lemma InRange(x: real, n: real, missing: real)
    requires n > 0.0 && 0.0 <= missing <= 2.0 * n && x * n == 100.0 * n - 50.0 * missing
    ensures 0.0 <= x <= 100.0 && (x == 100.0 <==> missing == 0.0)
  {
    Scale(x, 100.0, n);
    Scale(0.0, x, n);
    assert x * n == 100.0 * n <==> missing == 0.0;
  }

  lemma Scale(x: real, y: real, n: real)
    requires n > 0.0
    ensures x * n <= y * n <==> x <= y
    ensures x * n == y * n <==> x == y
  {
    if x < y {
      assert (y - x) * n > 0.0;
    } else if x > y {
      assert (x - y) * n > 0.0;
    }
  }

  lemma NearlyFull(x: real, n: real, missing: real)
    requires n > 0.0 && x * n == 100.0 * n - 50.0 * missing
    ensures x >= 99.95 <==> 1000.0 * missing <= n
  {
    Scale(99.95, x, n);
  }

  /** The stored value shows 100.0 exactly when the missing half-points are at most a thousandth of the nodes. */
  lemma {:induction false} StoredHundred(m: StatusMap)
    requires m != map[]
    ensures RoundTenth(Exact(m)) == 100.0 <==> 1000 * Shortfall(m) <= |m|
  {
    ExactInRange(m);
    RoundsToHundred(Exact(m));
    ExactFromShortfall(m);
    NearlyFull(Exact(m), |m| as real, Shortfall(m) as real);
  }

  /** Below 1000 nodes, 100.0 is stored only when every node is finished. */
  lemma {:induction false} HundredMeansFinished(m: StatusMap)
    requires m != map[] && |m| < 1000
    ensures RoundTenth(Exact(m)) == 100.0 <==> forall v :: v in m ==> m[v] == COMPLETED || m[v] == FAILED
  {
    StoredHundred(m);
    Counts(m);
  }

  /** From 1000 nodes on, one running node among finished ones already shows as 100.0. */
  lemma ThousandNodesRoundUp(m: StatusMap, v: NodeId)
    requires |m| >= 1000 && v in m && m[v] == RUNNING
    requires forall w :: w in m && w != v ==> m[w] == COMPLETED || m[w] == FAILED
    ensures RoundTenth(Exact(m)) == 100.0
  {
    assert Finished(m) == m.Keys - {v} && Running(m) == {v};
    assert m != map[];
    StoredHundred(m);
  }

  // --------------------------------------------------------------------- transitions

  /** The half-points a node in this status still lacks. */
  function Missing(s: Status): nat {
    match s
    case COMPLETED => 0
    case FAILED => 0
    case RUNNING => 1
    case _ => 2
  }

  /** Waiting, then RUNNING, then COMPLETED or FAILED; steps may be skipped. */
  predicate Forward(from: Status, to: Status) {
    from == to || to == COMPLETED || to == FAILED || from !in {RUNNING, COMPLETED, FAILED}
  }

  lemma SwapMember(before: set<NodeId>, after: set<NodeId>, v: NodeId)
    requires after - {v} == before - {v}
    ensures |after| == |before| - (if v in before then 1 else 0) + if v in after then 1 else 0
  {
    assert before == (before - {v}) + if v in before then {v} else {};
    assert after == (before - {v}) + if v in after then {v} else {};
  }

  lemma CountAfter(m: StatusMap, v: NodeId, s: Status)
    requires v in m
    ensures |m[v := s]| == |m|
    ensures |Finished(m[v := s])| ==
            |Finished(m)| - (if IsFinished(m[v]) then 1 else 0) + if IsFinished(s) then 1 else 0
    ensures |Running(m[v := s])| == |Running(m)| - (if m[v].RUNNING? then 1 else 0) + if s.RUNNING? then 1 else 0
  {
    var m' := m[v := s];
    assert m'.Keys == m.Keys;
    SwapMember(Finished(m), Finished(m'), v);
    SwapMember(Running(m), Running(m'), v);
  }

  lemma ShortfallAfter(m: StatusMap, v: NodeId, s: Status)
    requires v in m
    ensures |m[v := s]| == |m| && Shortfall(m[v := s]) == Shortfall(m) - Missing(m[v]) + Missing(s)
  {
    CountAfter(m, v, s);
  }

  /** Exact progress falls exactly when a node does not move forward; the stored value never falls on a forward move. */
  lemma {:induction false} ForwardNeverFalls(m: StatusMap, v: NodeId, s: Status)
    requires v in m
    ensures Exact(m) <= Exact(m[v := s]) <==> Forward(m[v], s)
    ensures Forward(m[v], s) ==> RoundTenth(Exact(m)) <= RoundTenth(Exact(m[v := s]))
  {
    var m' := m[v := s];
    ShortfallAfter(m, v, s);
    ExactFromShortfall(m);
    ExactFromShortfall(m');
    Scale(Exact(m), Exact(m'), |m| as real);
    if Forward(m[v], s) {
      RoundTenthMonotone(Exact(m), Exact(m'));
    }
  }

  // ------------------------------------------------------------------------ the service

  datatype StatusError = PipelineNotFound | NodeNotFound

  class StatusService {
    var pipelines: map<string, real>          // the stored progress of each pipeline
    var nodes: map<string, StatusMap>

    constructor ()
      ensures pipelines == map[] && nodes == map[]
    {
      pipelines, nodes := map[], map[];
    }

    method InitializePipeline(id: string, nodeIds: seq<NodeId>)
      modifies this
      ensures pipelines == old(pipelines)[id := 0.0]
      ensures nodes == old(nodes)[id := map v | v in nodeIds :: PENDING]
    {
      pipelines := pipelines[id := 0.0];
      nodes := nodes[id := map v | v in nodeIds :: PENDING];
    }

    /** The progress sum: one point per finished node, half a point per running one. */
    method CountPoints(m: StatusMap) returns (completed: nat, running: nat)
      ensures completed == |Finished(m)| && running == |Running(m)|
      ensures completed == |set v | v in m && (m[v] == COMPLETED || m[v] == FAILED)|
      ensures running == |set v | v in m && m[v] == RUNNING|
    {
      completed, running := 0, 0;
      CountedBounds(m);
      var rest := m.Keys;
      while rest != {}
        invariant rest <= m.Keys
        invariant completed == |Finished(m) - rest| && running == |Running(m) - rest|
        decreases rest
      {
        var v :| v in rest;
        OneMoreCounted(m, rest, v);
        if IsFinished(m[v]) {
          completed := completed + 1;
        }
        if m[v].RUNNING? {
          running := running + 1;
        }
        rest := rest - {v};
      }
      CountedStatuses(m);
    }

    method UpdatePipelineProgress(id: string)
      modifies this`pipelines
      ensures pipelines == if id in nodes && id in old(pipelines) && nodes[id] != map[]
                           then old(pipelines)[id := RoundTenth(Exact(nodes[id]))]
                           else old(pipelines)
    {
      if id !in nodes || id !in pipelines {
        return;
      }
      var m := nodes[id];
      if |m| == 0 {
        return;
      }
      var completed, running := CountPoints(m);
      var progress := (completed as real + running as real * 0.5) / |m| as real * 100.0;
      pipelines := pipelines[id := RoundTenth(progress)];
    }

    method UpdateNodeStatus(id: string, v: NodeId, status: Status) returns (error: Option<StatusError>)
      modifies this
      ensures error == Some(PipelineNotFound) <==> id !in old(nodes)
      ensures error == Some(NodeNotFound) <==> id in old(nodes) && v !in old(nodes)[id]
      ensures error.Some? ==> nodes == old(nodes) && pipelines == old(pipelines)
      ensures error.None? ==> nodes == old(nodes)[id := old(nodes)[id][v := status]]
      ensures error.None? ==> nodes[id] != map[]
      ensures error.None? ==>
                pipelines == if id in old(pipelines) then old(pipelines)[id := RoundTenth(Exact(nodes[id]))]
                             else old(pipelines)
    {
      if id !in nodes {
        return Some(PipelineNotFound);
      }
      if v !in nodes[id] {
        return Some(NodeNotFound);
      }
      nodes := nodes[id := nodes[id][v := status]];
      assert v in nodes[id];
      UpdatePipelineProgress(id);
      return None;
    }
  }

  lemma CountedBounds(m: StatusMap)
    ensures Finished(m) - m.Keys == {} && Running(m) - m.Keys == {}
    ensures Finished(m) - {} == Finished(m) && Running(m) - {} == Running(m)
  {
  }

  lemma OneMoreCounted(m: StatusMap, rest: set<NodeId>, v: NodeId)
    requires v in rest && rest <= m.Keys
    ensures |Finished(m) - (rest - {v})| == |Finished(m) - rest| + if IsFinished(m[v]) then 1 else 0
    ensures |Running(m) - (rest - {v})| == |Running(m) - rest| + if m[v].RUNNING? then 1 else 0
  {
    SwapMember(Finished(m) - rest, Finished(m) - (rest - {v}), v);
    SwapMember(Running(m) - rest, Running(m) - (rest - {v}), v);
  }
}
