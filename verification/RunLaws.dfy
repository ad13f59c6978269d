/**
 What a run leaves behind, in terms of the settings and inputs themselves
 (src/qmtl/sdk/execution/local.py:24-178): one solution of the equations, and every history.
 */
module RunLaws {
  import opened Outcomes
  import opened Graphs
  import opened Levels
  import opened Pipelines
  import opened HistoryStore
  import opened HistoryRuns
  import opened IntervalTtl
  import opened Evaluation
  import opened LocalEngine

  /** On a sortable pipeline the equations have at most one solution for given inputs. */
  lemma {:induction false} SolutionUnique(nodes: Nodes, inputs: Option<map<NodeId, Value>>,
                                          a: map<NodeId, Value>, b: map<NodeId, Value>)
    requires Sortable(UpstreamGraph(nodes)) && Solves(nodes, inputs, a) && Solves(nodes, inputs, b)
    ensures a == b
  {
    forall v | v in a
      ensures a[v] == b[v]
    {
      SameResult(nodes, inputs, a, b, v);
    }
  }

  lemma {:induction false} SameResult(nodes: Nodes, inputs: Option<map<NodeId, Value>>,
                                      a: map<NodeId, Value>, b: map<NodeId, Value>, v: NodeId)
    requires Sortable(UpstreamGraph(nodes)) && Solves(nodes, inputs, a) && Solves(nodes, inputs, b) && v in a
    ensures a[v] == b[v]
    decreases Level(UpstreamGraph(nodes), v)
  {
    if v in nodes && (inputs.None? || nodes[v].upstreams != []) {
      var computed := set w | w in nodes && (inputs.None? || nodes[w].upstreams != []);
      assert v in computed;
      UpstreamsBelow(nodes, v);
      forall u | u in nodes[v].upstreams
        ensures a[u] == b[u]
      {
        SameResult(nodes, inputs, a, b, u);
      }
      assert (map u | u in nodes[v].upstreams :: a[u]) == map u | u in nodes[v].upstreams :: b[u];
    }
  }

  // ------------------------------------------------------------------------ histories

  /** One new item, saved during the run, in front of as many old ones as fit. */
  ghost predicate SavedOnce(k: seq<Item>, l: seq<Item>, value: Value, ttl: Option<int>, cap: nat, lo: int, hi: int) {
    exists at :: lo <= at <= hi && NewestFirst(k, l, value, at, ttl, cap)
  }

  lemma {:induction false} CutNewestFirst(k: seq<Item>, l: seq<Item>, value: Value, at: int, ttl: Option<int>,
                                          cap: nat, m: nat)
    requires NewestFirst(k, l, value, at, ttl, cap)
    ensures NewestFirst(Cut(k, m), l, value, at, ttl, if m < cap then m else cap)
  {
    CutIsPrefix(k, m);
  }

  /** The list of one node and interval before the end-of-run caps. */
  lemma {:induction false} HistoryBeforeTrim(nodes: Nodes, inputs: Option<map<NodeId, Value>>, s: Store, t: Store,
                                             results: map<NodeId, Value>, times: map<NodeId, Times>, lo: int, hi: int,
                                             v: NodeId, i: string) returns (before: seq<Item>)
    requires HistoryAfterRun(nodes, inputs, s, t, results, times, lo, hi)
    ensures before == SavedList(nodes, AllExecuted(nodes, inputs), s, results, times, v, i)
    ensures ListedAt(t, v, i) == if v in nodes && i in nodes[v].intervals
                                 then Cut(before, TrimCap(nodes[v].intervals[i])) else before
    ensures v in nodes && Executes(nodes, inputs, v) ==>
              v in results && v in times && times[v].Keys == SaveSettings(nodes[v]).Keys && InSpan(times[v], lo, hi)
  {
    var done := AllExecuted(nodes, inputs);
    var saved: Store :| SavedRun(nodes, done, s, saved, results, times, lo, hi) && TrimmedRun(nodes, {}, saved, t);
    before := ListedAt(saved, v, i);
    assert v in nodes && Executes(nodes, inputs, v) ==> v in done;
  }

  /** Under a setting object a history holds at most its cap, and at most 100 items, whichever is less. */
  lemma {:induction false} ObjectHistory(nodes: Nodes, inputs: Option<map<NodeId, Value>>, s: Store, t: Store,
                                         results: map<NodeId, Value>, times: map<NodeId, Times>, lo: int, hi: int,
                                         v: NodeId, i: string, m: nat)
    requires HistoryAfterRun(nodes, inputs, s, t, results, times, lo, hi)
    requires v in nodes && i in nodes[v].intervals && nodes[v].intervals[i] == ObjectSetting(m)
    ensures var l, k := ListedAt(s, v, i), ListedAt(t, v, i);
            if inputs.None? || nodes[v].upstreams != []
            then v in results && SavedOnce(k, l, results[v], None, if m < 100 then m else 100, lo, hi)
            else k == l[..if |l| < m then |l| else m]
  {
    var before := HistoryBeforeTrim(nodes, inputs, s, t, results, times, lo, hi, v, i);
    CutIsPrefix(before, m);
    if inputs.None? || nodes[v].upstreams != [] {
      SavedNewestFirst(ListedAt(s, v, i), results[v], times[v][i], None, 100);
      CutNewestFirst(before, ListedAt(s, v, i), results[v], times[v][i], None, 100, m);
    }
  }

  /** Under a dictionary the cap and the TTL apply on saving, the TTL of the name if none is given; 100 at the end. */
  lemma {:induction false} DictionaryHistory(nodes: Nodes, inputs: Option<map<NodeId, Value>>, s: Store, t: Store,
                                             results: map<NodeId, Value>, times: map<NodeId, Times>, lo: int, hi: int,
                                             v: NodeId, i: string, cap: Option<int>, ttl: Option<int>)
    requires HistoryAfterRun(nodes, inputs, s, t, results, times, lo, hi)
    requires v in nodes && i in nodes[v].intervals && nodes[v].intervals[i] == DictSetting(cap, ttl)
    requires cap.Some? ==> cap.value >= 0
    ensures var l, k := ListedAt(s, v, i), ListedAt(t, v, i);
            if inputs.None? || nodes[v].upstreams != []
            then v in results && SavedOnce(k, l, results[v], if ttl.Some? then ttl else InferTtl(i),
                                           if cap.Some? && cap.value < 100 then cap.value else 100, lo, hi)
            else k == l[..if |l| < 100 then |l| else 100]
  {
    var before := HistoryBeforeTrim(nodes, inputs, s, t, results, times, lo, hi, v, i);
    CutIsPrefix(before, 100);
    if inputs.None? || nodes[v].upstreams != [] {
      var c, expiry := if cap.Some? then cap.value else 100, if ttl.Some? then ttl else InferTtl(i);
      SavedNewestFirst(ListedAt(s, v, i), results[v], times[v][i], expiry, c);
      CutNewestFirst(before, ListedAt(s, v, i), results[v], times[v][i], expiry, c, 100);
    }
  }

  /** A node without settings has its results under "1d", 100 of them; no other list of any node changes. */
  lemma {:induction false} UnconfiguredHistory(nodes: Nodes, inputs: Option<map<NodeId, Value>>, s: Store, t: Store,
                                               results: map<NodeId, Value>, times: map<NodeId, Times>,
                                               lo: int, hi: int, v: NodeId, i: string)
    requires HistoryAfterRun(nodes, inputs, s, t, results, times, lo, hi)
    requires v !in nodes || i !in nodes[v].intervals
    ensures var l, k := ListedAt(s, v, i), ListedAt(t, v, i);
            if v in nodes && nodes[v].intervals == map[] && i == "1d" && (inputs.None? || nodes[v].upstreams != [])
            then v in results && SavedOnce(k, l, results[v], None, 100, lo, hi)
            else k == l
  {
    var before := HistoryBeforeTrim(nodes, inputs, s, t, results, times, lo, hi, v, i);
    if v in nodes && nodes[v].intervals == map[] && i == "1d" && (inputs.None? || nodes[v].upstreams != []) {
      assert i in times[v];
      SavedNewestFirst(ListedAt(s, v, i), results[v], times[v][i], None, 100);
    }
  }
}
