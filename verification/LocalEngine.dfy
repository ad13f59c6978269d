/**
 Running a pipeline in one process (src/qmtl/sdk/execution/local.py:24-198): nodes in execution
 order, results passed downstream, and every computed result saved in the interval history.
 */
module LocalEngine {
  import opened Outcomes
  import opened Sequences
  import opened Graphs
  import opened Pipelines
  import opened HistoryStore
  import opened HistoryRuns
  import opened IntervalTtl
  import opened Evaluation

  datatype EngineError = SortFailed(error: PipelineError) | MissingUpstream(node: NodeId, upstream: NodeId)

  /** The system clock: it never goes back. */
  class Clock {
    var now: int

    constructor ()
    {
    }

    method Time() returns (t: int)
      modifies this
      ensures t == now && old(now) <= now
    {
      t :| now <= t;
      now := t;
    }
  }

  /** Where a node's results are saved: its intervals, or the daily interval when it has none. */
  function SaveSettings(node: PipelineNode): map<string, HistorySetting> {
    if node.intervals == map[] then map["1d" := ObjectSetting(100)] else node.intervals
  }

  function SaveCap(setting: HistorySetting): int {
    match setting
    case ObjectSetting(_) => 100
    case DictSetting(cap, _) => if cap.Some? then cap.value else 100
  }

  /** A dictionary without a TTL gets the one that the name of its interval suggests. */
  function SaveTtl(interval: string, setting: HistorySetting): Option<int> {
    match setting
    case ObjectSetting(_) => None
    case DictSetting(_, ttl) => if ttl.Some? then ttl else InferTtl(interval)
  }

  /** Under a dictionary without a TTL, an item of the interval "7d", say, lives for seven days. */
  lemma LivesForItsInterval(n: nat, unit: char, cap: Option<int>, value: Value, at: int, now: int)
    requires unit in {'d', 'h', 'm'} && at > 0
    ensures var ttl := SaveTtl(Decimal(n) + [unit], DictSetting(cap, None));
            Live(Item(at, value, Expiry(at, ttl)), now) <==>
            now < at + n * (if unit == 'd' then 86400 else if unit == 'h' then 3600 else 60)
  {
    InferredFromDecimal(n, unit);
  }

  /** The cap applied at the end of a run; a dictionary has no such attribute. */
  function TrimCap(setting: HistorySetting): int {
    match setting
    case ObjectSetting(maxHistory) => maxHistory
    case DictSetting(_, _) => 100
  }

  /** The list after saving `value` at time `t`. */
  function SavedUnder(l: seq<Item>, t: int, value: Value, i: string, setting: HistorySetting): seq<Item> {
    Saved(l, Item(t, value, Expiry(t, SaveTtl(i, setting))), SaveCap(setting))
  }

  /** Is the node computed in a run, rather than supplied or skipped? */
  predicate Executes(nodes: Nodes, inputs: Option<map<NodeId, Value>>, v: NodeId) {
    v in nodes && (inputs.None? || nodes[v].upstreams != [])
  }

  function InputKeys(inputs: Option<map<NodeId, Value>>): set<NodeId> {
    if inputs.Some? then inputs.value.Keys else {}
  }

  // ---------------------------------------------------------------- what the loop keeps

  /** After the nodes in `done`: their values, and the untouched inputs beside them. */
  ghost predicate Computed(nodes: Nodes, inputs: Option<map<NodeId, Value>>, done: set<NodeId>,
                           results: map<NodeId, Value>)
    requires Sortable(UpstreamGraph(nodes))
  {
    && (forall v :: v in done ==> Executes(nodes, inputs, v))
    && results.Keys == InputKeys(inputs) + done
    && (forall v :: v in done ==> Eval(nodes, Given(nodes, inputs), v) == Some(results[v]))
    && (forall v :: v in results && v !in done ==> inputs.Some? && v in inputs.value && results[v] == inputs.value[v])
  }

  /** The upstream results found in `results` are the evaluated ones; a missing one has no value. */
  lemma {:induction false} UpstreamResult(nodes: Nodes, inputs: Option<map<NodeId, Value>>, done: set<NodeId>,
                                          results: map<NodeId, Value>, v: NodeId, u: NodeId)
    requires Sortable(UpstreamGraph(nodes)) && Computed(nodes, inputs, done, results)
    requires v in nodes && u in nodes[v].upstreams && u in nodes
    requires Executes(nodes, inputs, u) ==> u in done
    ensures Eval(nodes, Given(nodes, inputs), u) == if u in results then Some(results[u]) else None
    ensures u !in results ==> inputs.Some? && IsSource(nodes, u) && u !in inputs.value
  {
  }

  /** A node's function applied to its evaluated upstreams yields its value. */
  lemma {:induction false} EvalOfUpstreams(nodes: Nodes, given: map<NodeId, Value>, v: NodeId,
                                           nodeInputs: map<NodeId, Value>)
    requires Sortable(UpstreamGraph(nodes)) && v in nodes && nodes[v].upstreams != []
    requires nodeInputs.Keys == Elements(nodes[v].upstreams)
    requires forall u :: u in nodes[v].upstreams ==> u in nodes && Eval(nodes, given, u) == Some(nodeInputs[u])
    ensures Eval(nodes, given, v) == Some(nodes[v].fn(nodeInputs))
  {
    var values := map u | u in nodes[v].upstreams :: Eval(nodes, given, u).value;
    assert values == nodeInputs;
  }

  lemma {:induction false} ComputedOneMore(nodes: Nodes, inputs: Option<map<NodeId, Value>>, done: set<NodeId>,
                                           results: map<NodeId, Value>, v: NodeId, nodeInputs: map<NodeId, Value>)
    requires Sortable(UpstreamGraph(nodes)) && Computed(nodes, inputs, done, results)
    requires Executes(nodes, inputs, v)
    requires forall u :: u in nodes[v].upstreams ==> u in nodes && (Executes(nodes, inputs, u) ==> u in done)
    requires nodeInputs.Keys == Elements(nodes[v].upstreams)
    requires forall u :: u in nodeInputs ==> u in results && nodeInputs[u] == results[u]
    ensures Computed(nodes, inputs, done + {v}, results[v := nodes[v].fn(nodeInputs)])
  {
    var given := Given(nodes, inputs);
    forall u | u in nodes[v].upstreams
      ensures Eval(nodes, given, u) == Some(nodeInputs[u])
    {
      UpstreamResult(nodes, inputs, done, results, v, u);
    }
    if nodes[v].upstreams == [] {
      assert nodeInputs == map[];
    } else {
      EvalOfUpstreams(nodes, given, v, nodeInputs);
    }
    assert Eval(nodes, given, v) == Some(nodes[v].fn(nodeInputs));
  }

  // ------------------------------------------------------------- what a run saves

  ghost function ListedAt(s: Store, v: NodeId, i: string): seq<Item> {
    Listed(s, v.text, i)
  }

  type Times = map<string, int>

  ghost predicate InSpan(times: Times, lo: int, hi: int) {
    forall i :: i in times ==> lo <= times[i] <= hi
  }

  /** `t` differs from `s` by one save of `value` for every interval of `settings` that is not in `rest`. */
  ghost predicate SavedFor(s: Store, t: Store, name: NodeId, settings: map<string, HistorySetting>,
                           rest: set<string>, value: Value, times: Times)
  {
    && times.Keys == settings.Keys - rest
    && forall v, i :: ListedAt(t, v, i) ==
                      if v == name && i in times && i in settings
                      then SavedUnder(ListedAt(s, v, i), times[i], value, i, settings[i])
                      else ListedAt(s, v, i)
  }

  lemma SavedForOneMore(s: Store, t: Store, name: NodeId, settings: map<string, HistorySetting>,
                        rest: set<string>, value: Value, times: Times, i: string, now: int)
    requires SavedFor(s, t, name, settings, rest, value, times) && i in rest && rest <= settings.Keys
    ensures var e := At(now, Save(name.text, i, value, SaveCap(settings[i]), SaveTtl(i, settings[i])));
            SavedFor(s, Step(t, e), name, settings, rest - {i}, value, times[i := now])
  {
    var e := At(now, Save(name.text, i, value, SaveCap(settings[i]), SaveTtl(i, settings[i])));
    var times' := times[i := now];
    forall v, j
      ensures ListedAt(Step(t, e), v, j) ==
              if v == name && j in times' && j in settings
              then SavedUnder(ListedAt(s, v, j), times'[j], value, j, settings[j])
              else ListedAt(s, v, j)
    {
      ListOfStep(t, e, false, v.text, j);
      assert ListedAt(t, v, j) == if v == name && j in times && j in settings
                                  then SavedUnder(ListedAt(s, v, j), times[j], value, j, settings[j])
                                  else ListedAt(s, v, j);
      assert v.text == name.text <==> v == name;
    }
  }

  /** The list of (v, i) after the saves of the nodes in `done`. */
  ghost function SavedList(nodes: Nodes, done: set<NodeId>, s: Store, results: map<NodeId, Value>,
                           times: map<NodeId, Times>, v: NodeId, i: string): seq<Item>
  {
    if v in done && v in nodes && v in results && v in times
       && i in SaveSettings(nodes[v]) && i in times[v] then
      SavedUnder(ListedAt(s, v, i), times[v][i], results[v], i, SaveSettings(nodes[v])[i])
    else
      ListedAt(s, v, i)
  }

  ghost predicate SavedRun(nodes: Nodes, done: set<NodeId>, s: Store, t: Store, results: map<NodeId, Value>,
                           times: map<NodeId, Times>, lo: int, hi: int)
  {
    && (forall v :: v in done ==> v in nodes && v in results && v in times
                                  && times[v].Keys == SaveSettings(nodes[v]).Keys && InSpan(times[v], lo, hi))
    && forall v, i :: ListedAt(t, v, i) == SavedList(nodes, done, s, results, times, v, i)
  }

  lemma {:induction false} SavedRunOneMore(nodes: Nodes, done: set<NodeId>, s: Store, t: Store, u: Store,
                                           results: map<NodeId, Value>, times: map<NodeId, Times>, lo: int, mid: int,
                                           hi: int, v: NodeId, value: Value, at: Times)
    requires SavedRun(nodes, done, s, t, results, times, lo, mid)
    requires v in nodes && v !in done && lo <= mid <= hi
    requires SavedFor(t, u, v, SaveSettings(nodes[v]), {}, value, at) && InSpan(at, mid, hi)
    ensures SavedRun(nodes, done + {v}, s, u, results[v := value], times[v := at], lo, hi)
  {
    forall x, i
      ensures ListedAt(u, x, i) == SavedList(nodes, done + {v}, s, results[v := value], times[v := at], x, i)
    {
      assert ListedAt(t, x, i) == SavedList(nodes, done, s, results, times, x, i);
    }
  }

  /** `t` differs from `s` by the end-of-run cap on every interval of `settings` that is not in `rest`. */
  ghost predicate TrimmedFor(s: Store, t: Store, name: NodeId, settings: map<string, HistorySetting>,
                             rest: set<string>)
  {
    forall v, i :: ListedAt(t, v, i) ==
                   if v == name && i in settings && i !in rest then Cut(ListedAt(s, v, i), TrimCap(settings[i]))
                   else ListedAt(s, v, i)
  }

  lemma TrimmedForOneMore(s: Store, t: Store, name: NodeId, settings: map<string, HistorySetting>,
                          rest: set<string>, i: string)
    requires TrimmedFor(s, t, name, settings, rest) && i in rest && i in settings
    ensures TrimmedFor(s, Step(t, At(0, TrimTo(name.text, i, TrimCap(settings[i])))), name, settings, rest - {i})
  {
    var e := At(0, TrimTo(name.text, i, TrimCap(settings[i])));
    forall v, j
      ensures ListedAt(Step(t, e), v, j) ==
              if v == name && j in settings && j !in rest - {i} then Cut(ListedAt(s, v, j), TrimCap(settings[j]))
              else ListedAt(s, v, j)
    {
      ListOfStep(t, e, false, v.text, j);
      assert ListedAt(t, v, j) == if v == name && j in settings && j !in rest
                                  then Cut(ListedAt(s, v, j), TrimCap(settings[j])) else ListedAt(s, v, j);
      assert v.text == name.text <==> v == name;
    }
  }

  /** The cap has been applied to the nodes that are not in `rest`. */
  ghost predicate TrimmedRun(nodes: Nodes, rest: set<NodeId>, s: Store, t: Store) {
    forall v, i :: ListedAt(t, v, i) ==
                   if v in nodes && v !in rest && i in nodes[v].intervals
                   then Cut(ListedAt(s, v, i), TrimCap(nodes[v].intervals[i]))
                   else ListedAt(s, v, i)
  }

  lemma {:induction false} TrimmedRunOneMore(nodes: Nodes, rest: set<NodeId>, s: Store, t: Store, u: Store, v: NodeId)
    requires TrimmedRun(nodes, rest, s, t) && v in nodes && v in rest
    requires TrimmedFor(t, u, v, nodes[v].intervals, {})
    ensures TrimmedRun(nodes, rest - {v}, s, u)
  {
    forall x, i
      ensures ListedAt(u, x, i) ==
              if x in nodes && x !in rest - {v} && i in nodes[x].intervals
              then Cut(ListedAt(s, x, i), TrimCap(nodes[x].intervals[i]))
              else ListedAt(s, x, i)
    {
      assert ListedAt(t, x, i) ==
             if x in nodes && x !in rest && i in nodes[x].intervals
             then Cut(ListedAt(s, x, i), TrimCap(nodes[x].intervals[i]))
             else ListedAt(s, x, i);
    }
  }

  /** The histories after a whole run: one save per computed node and interval, then the cap of each interval. */
  ghost predicate HistoryAfterRun(nodes: Nodes, inputs: Option<map<NodeId, Value>>, s: Store, t: Store,
                                  results: map<NodeId, Value>, times: map<NodeId, Times>, lo: int, hi: int)
  {
    exists saved: Store ::
      SavedRun(nodes, AllExecuted(nodes, inputs), s, saved, results, times, lo, hi) && TrimmedRun(nodes, {}, saved, t)
  }

  /** Everything a run of `inputs` computes. */
  ghost function AllExecuted(nodes: Nodes, inputs: Option<map<NodeId, Value>>): set<NodeId> {
    set v | v in nodes && Executes(nodes, inputs, v)
  }

  /** `error` names a node and one of its upstreams, a source the inputs leave out. */
  ghost predicate BlamesMissingSource(nodes: Nodes, inputs: Option<map<NodeId, Value>>, error: EngineError) {
    error.MissingUpstream? && LacksSource(nodes, inputs, error.node, error.upstream)
  }

  ghost predicate LacksSource(nodes: Nodes, inputs: Option<map<NodeId, Value>>, p: NodeId, u: NodeId) {
    && p in nodes && u in nodes[p].upstreams && u in nodes && nodes[u].upstreams == []
    && inputs.Some? && u !in inputs.value
  }

  /**
   The equations of a run.  Without inputs every node, with inputs every node that has upstreams, has the
   value of its function on the values of its upstreams; any other result is the input of that name.
   */
  ghost predicate Solves(nodes: Nodes, inputs: Option<map<NodeId, Value>>, results: map<NodeId, Value>) {
    var computed := set v | v in nodes && (inputs.None? || nodes[v].upstreams != []);
    && results.Keys == computed + (if inputs.Some? then inputs.value.Keys else {})
    && (forall v, u :: v in computed && u in nodes[v].upstreams ==> u in results)
    && (forall v :: v in computed ==> results[v] == nodes[v].fn(map u | u in nodes[v].upstreams :: results[u]))
    && (inputs.Some? ==> forall s :: s in inputs.value && (s in nodes ==> nodes[s].upstreams == []) ==>
                           results[s] == inputs.value[s])
  }

  lemma {:induction false} ComputedSolves(nodes: Nodes, inputs: Option<map<NodeId, Value>>,
                                          results: map<NodeId, Value>)
    requires Sortable(UpstreamGraph(nodes)) && Computed(nodes, inputs, AllExecuted(nodes, inputs), results)
    ensures Solves(nodes, inputs, results)
  {
    var given := Given(nodes, inputs);
    forall v | v in nodes && (inputs.None? || nodes[v].upstreams != [])
      ensures forall u :: u in nodes[v].upstreams ==> u in results
      ensures results[v] == nodes[v].fn(map u | u in nodes[v].upstreams :: results[u])
    {
      assert v in AllExecuted(nodes, inputs);
      UpstreamsBelow(nodes, v);
      forall u | u in nodes[v].upstreams
        ensures u in results && Eval(nodes, given, u) == Some(results[u])
      {
        UpstreamResult(nodes, inputs, AllExecuted(nodes, inputs), results, v, u);
      }
      var values := map u | u in nodes[v].upstreams :: results[u];
      if nodes[v].upstreams == [] {
        assert values == map[];
      } else {
        EvalOfUpstreams(nodes, given, v, values);
      }
    }
  }

  class LocalExecutionEngine {
    const stores: Stores
    const clock: Clock
    var results: map<NodeId, Value>

    constructor (stores: Stores, clock: Clock)
      ensures this.stores == stores && this.clock == clock
    {
      this.stores, this.clock, results := stores, clock, map[];
    }

    /** The values of the upstreams, or the first upstream without a result. */
    method PrepareNodeInputs(node: PipelineNode, results: map<NodeId, Value>)
      returns (r: Result<map<NodeId, Value>, EngineError>)
      ensures r.Ok? <==> forall u :: u in node.upstreams ==> u in results
      ensures r.Ok? ==> forall u :: u in r.value ==> u in results && r.value[u] == results[u]
      ensures r.Ok? ==> r.value.Keys == if node.upstreams == [] && node.name in results then {node.name}
                                        else Elements(node.upstreams)
      ensures r.Err? ==> r.error.MissingUpstream? && r.error.node == node.name
                         && r.error.upstream in node.upstreams && r.error.upstream !in results
    {
      if node.name in results && node.upstreams == [] {
        return Ok(map[node.name := results[node.name]]);
      }
      var nodeInputs := map[];
      for i := 0 to |node.upstreams|
        invariant nodeInputs.Keys == Elements(node.upstreams[..i])
        invariant forall u :: u in nodeInputs ==> u in results && nodeInputs[u] == results[u]
      {
        var upstream := node.upstreams[i];
        if upstream !in results {
          return Err(MissingUpstream(node.name, upstream));
        }
        TakeOneMore(node.upstreams, i);
        nodeInputs := nodeInputs[upstream := results[upstream]];
      }
      assert node.upstreams[..|node.upstreams|] == node.upstreams;
      assert forall u :: u in node.upstreams ==> u in nodeInputs.Keys;
      return Ok(nodeInputs);
    }

    /** Save a result under every interval of the node, in whatever order the settings are iterated. */
    method RecordResult(node: PipelineNode, value: Value) returns (ghost times: Times)
      modifies stores, clock
      ensures SavedFor(old(stores.Contents()), stores.Contents(), node.name, SaveSettings(node), {}, value, times)
      ensures old(clock.now) <= clock.now && InSpan(times, old(clock.now), clock.now)
      ensures old(Agree(stores.Contents())) ==> Agree(stores.Contents())
    {
      var settings := SaveSettings(node);
      var rest := settings.Keys;
      times := map[];
      ghost var s0, agreed := stores.Contents(), Agree(stores.Contents());
      while rest != {}
        invariant rest <= settings.Keys
        invariant SavedFor(s0, stores.Contents(), node.name, settings, rest, value, times)
        invariant old(clock.now) <= clock.now && InSpan(times, old(clock.now), clock.now)
        invariant agreed ==> Agree(stores.Contents())
        decreases rest
      {
        var i :| i in rest;
        var now := clock.Time();
        ghost var e := At(now, Save(node.name.text, i, value, SaveCap(settings[i]), SaveTtl(i, settings[i])));
        SavedForOneMore(s0, stores.Contents(), node.name, settings, rest, value, times, i, now);
        if agreed {
          AgreeStep(stores.Contents(), e);
        }
        stores.SaveIntervalData(node.name.text, i, value, SaveCap(settings[i]), SaveTtl(i, settings[i]), now);
        times := times[i := now];
        rest := rest - {i};
      }
    }

    method TrimNode(node: PipelineNode)
      modifies stores
      ensures TrimmedFor(old(stores.Contents()), stores.Contents(), node.name, node.intervals, {})
      ensures old(Agree(stores.Contents())) ==> Agree(stores.Contents())
    {
      var rest := node.intervals.Keys;
      ghost var s0, agreed := stores.Contents(), Agree(stores.Contents());
      while rest != {}
        invariant rest <= node.intervals.Keys
        invariant TrimmedFor(s0, stores.Contents(), node.name, node.intervals, rest)
        invariant agreed ==> Agree(stores.Contents())
        decreases rest
      {
        var i :| i in rest;
        var cap := TrimCap(node.intervals[i]);
        TrimmedForOneMore(s0, stores.Contents(), node.name, node.intervals, rest, i);
        if agreed {
          AgreeStep(stores.Contents(), At(0, TrimTo(node.name.text, i, cap)));
        }
        stores.Trim(node.name.text, i, cap);
        rest := rest - {i};
      }
    }

    /** The loop at the end of a run, over the nodes in insertion order. */
    method TrimAll(nodes: Nodes, names: seq<NodeId>)
      requires Distinct(names) && forall v :: v in names <==> v in nodes
      requires forall v :: v in nodes ==> nodes[v].name == v
      modifies stores
      ensures TrimmedRun(nodes, {}, old(stores.Contents()), stores.Contents())
      ensures old(Agree(stores.Contents())) ==> Agree(stores.Contents())
    {
      ghost var s0, agreed := stores.Contents(), Agree(stores.Contents());
      assert names[0..] == names;
      for k := 0 to |names|
        invariant TrimmedRun(nodes, Elements(names[k..]), s0, stores.Contents())
        invariant agreed ==> Agree(stores.Contents())
      {
        ghost var t := stores.Contents();
        TrimNode(nodes[names[k]]);
        RestOfNames(names, k);
        TrimmedRunOneMore(nodes, Elements(names[k..]), s0, t, stores.Contents(), names[k]);
      }
    }

    /** One turn of the main loop: take an input, skip a source, or compute and record. */
    method RunNode(nodes: Nodes, inputs: Option<map<NodeId, Value>>, v: NodeId, ghost done: set<NodeId>)
      returns (error: Option<EngineError>, ghost at: Times)
      requires Sortable(UpstreamGraph(nodes)) && Computed(nodes, inputs, done, results)
      requires v in nodes && v !in done && nodes[v].name == v
      requires forall u :: u in nodes[v].upstreams ==> u in nodes && (Executes(nodes, inputs, u) ==> u in done)
      modifies this`results, stores, clock
      ensures old(clock.now) <= clock.now && InSpan(at, old(clock.now), clock.now)
      ensures old(Agree(stores.Contents())) ==> Agree(stores.Contents())
      ensures !Executes(nodes, inputs, v) ==>
                error.None? && results == old(results) && stores.Contents() == old(stores.Contents())
      ensures error.None? && Executes(nodes, inputs, v) ==>
                && v in results && results == old(results)[v := results[v]]
                && Computed(nodes, inputs, done + {v}, results)
                && SavedFor(old(stores.Contents()), stores.Contents(), v, SaveSettings(nodes[v]), {}, results[v], at)
      ensures error.Some? ==> BlamesMissingSource(nodes, inputs, error.value) && error.value.node == v
    {
      at := map[];
      var node := nodes[v];
      if inputs.Some? && node.upstreams == [] {
        if v in inputs.value {
          results := results[v := inputs.value[v]];
          assert results == old(results);
        }
        return None, at;
      }
      if v in results && node.upstreams == [] {
        assert false;
      }
      var prepared := PrepareNodeInputs(node, results);
      if prepared.Err? {
        UpstreamResult(nodes, inputs, done, results, v, prepared.error.upstream);
        return Some(prepared.error), at;
      }
      var result := node.fn(prepared.value);
      ComputedOneMore(nodes, inputs, done, results, v, prepared.value);
      results := results[v := result];
      at := RecordResult(node, result);
      return None, at;
    }

    /** One turn, as it advances the run. */
    method RunTurn(nodes: Nodes, inputs: Option<map<NodeId, Value>>, order: seq<NodeId>, k: nat,
                   ghost s0: Store, ghost lo: int, ghost times0: map<NodeId, Times>)
      returns (error: Option<EngineError>, ghost times: map<NodeId, Times>)
      requires IsTopoOrder(UpstreamGraph(nodes), order) && Sortable(UpstreamGraph(nodes)) && k < |order|
      requires forall v :: v in nodes ==> nodes[v].name == v
      requires RunSoFar(nodes, inputs, order[..k], s0, stores.Contents(), results, times0, lo, clock.now)
      modifies this`results, stores, clock
      ensures old(Agree(stores.Contents())) ==> Agree(stores.Contents())
      ensures old(clock.now) <= clock.now
      ensures error.None? ==>
                RunSoFar(nodes, inputs, order[..k + 1], s0, stores.Contents(), results, times, lo, clock.now)
      ensures error.Some? ==> BlamesMissingSource(nodes, inputs, error.value)
    {
      ghost var s1, mid, results1 := stores.Contents(), clock.now, results;
      UpstreamsAlreadyRun(nodes, inputs, order, k);
      ghost var at;
      error, at := RunNode(nodes, inputs, order[k], ExecutedAmong(nodes, inputs, order[..k]));
      times := if Executes(nodes, inputs, order[k]) then times0[order[k] := at] else times0;
      if error.None? {
        RunOneMoreNode(nodes, inputs, order, k, s0, s1, stores.Contents(), results1, results, times0, at,
                       lo, mid, clock.now);
      }
    }

    method RunNodes(nodes: Nodes, order: seq<NodeId>, inputs: Option<map<NodeId, Value>>)
      returns (error: Option<EngineError>, ghost times: map<NodeId, Times>)
      requires IsTopoOrder(UpstreamGraph(nodes), order) && Sortable(UpstreamGraph(nodes))
      requires forall v :: v in nodes ==> nodes[v].name == v
      modifies this`results, stores, clock
      ensures old(Agree(stores.Contents())) ==> Agree(stores.Contents())
      ensures old(clock.now) <= clock.now
      ensures error.None? ==>
                && Computed(nodes, inputs, AllExecuted(nodes, inputs), results)
                && SavedRun(nodes, AllExecuted(nodes, inputs), old(stores.Contents()), stores.Contents(),
                            results, times, old(clock.now), clock.now)
      ensures error.Some? ==> BlamesMissingSource(nodes, inputs, error.value)
    {
      results := if inputs.None? then map[] else inputs.value;
      times := map[];
      ghost var s0, agreed, lo := stores.Contents(), Agree(stores.Contents()), clock.now;
      for k := 0 to |order|
        invariant agreed ==> Agree(stores.Contents())
        invariant RunSoFar(nodes, inputs, order[..k], s0, stores.Contents(), results, times, lo, clock.now)
      {
        error, times := RunTurn(nodes, inputs, order, k, s0, lo, times);
        if error.Some? {
          return;
        }
      }
      assert order[..|order|] == order;
      AllHaveRun(nodes, inputs, order);
      error := None;
    }

    /**
     A run fails for lack of a value exactly when some processing node has none, which is when the inputs
     leave out a source it descends from; otherwise the results are the evaluated values beside the inputs.
     */
    method ExecutePipeline(pipeline: Pipeline, inputs: Option<map<NodeId, Value>>)
      returns (r: Result<map<NodeId, Value>, EngineError>, ghost times: map<NodeId, Times>)
      requires pipeline.Valid()
      modifies pipeline`executionOrder, this`results, stores, clock
      ensures pipeline.Valid()
      ensures old(Agree(stores.Contents())) ==> Agree(stores.Contents())
      ensures r.Err? && r.error.SortFailed? <==> !Sortable(UpstreamGraph(pipeline.nodes))
      ensures r.Err? && r.error.MissingUpstream? <==>
              Sortable(UpstreamGraph(pipeline.nodes)) && SomethingHasNoValue(pipeline.nodes, inputs)
      ensures r.Err? && r.error.MissingUpstream? ==> BlamesMissingSource(pipeline.nodes, inputs, r.error)
      ensures inputs.None? ==> (r.Ok? <==> Sortable(UpstreamGraph(pipeline.nodes)))
      ensures r.Ok? <==> Sortable(UpstreamGraph(pipeline.nodes)) &&
                         forall p, u :: !LacksSource(pipeline.nodes, inputs, p, u)
      ensures r.Ok? ==> Solves(pipeline.nodes, inputs, r.value)
      ensures r.Ok? ==>
                && Computed(pipeline.nodes, inputs, AllExecuted(pipeline.nodes, inputs), r.value)
                && HistoryAfterRun(pipeline.nodes, inputs, old(stores.Contents()), stores.Contents(),
                                   r.value, times, old(clock.now), clock.now)
    {
      times := map[];
      var sorted := pipeline.GetExecutionOrder();
      if sorted.Err? {
        return Err(SortFailed(sorted.error)), times;
      }
      var error;
      error, times := RunNodes(pipeline.nodes, sorted.value, inputs);
      if inputs.None? {
        NoInputsNothingMissing(pipeline.nodes);
      }
      if error.Some? {
        BlamedHasNoValue(pipeline.nodes, inputs, error.value);
        return Err(error.value), times;
      }
      ghost var saved := stores.Contents();
      TrimAll(pipeline.nodes, pipeline.names);
      assert TrimmedRun(pipeline.nodes, {}, saved, stores.Contents());
      ComputedSolves(pipeline.nodes, inputs, results);
      SolvedLacksNothing(pipeline.nodes, inputs, results);
      return Ok(results), times;
    }
  }

  lemma {:induction false} SolvedLacksNothing(nodes: Nodes, inputs: Option<map<NodeId, Value>>,
                                              results: map<NodeId, Value>)
    requires Solves(nodes, inputs, results)
    ensures forall p, u :: !LacksSource(nodes, inputs, p, u)
  {
    var computed := set v | v in nodes && (inputs.None? || nodes[v].upstreams != []);
    forall p, u | p in nodes && u in nodes[p].upstreams && u in nodes && nodes[u].upstreams == [] && inputs.Some?
      ensures u in inputs.value
    {
      assert p in computed && u in results;
    }
  }

  ghost predicate SomethingHasNoValue(nodes: Nodes, inputs: Option<map<NodeId, Value>>)
    requires Sortable(UpstreamGraph(nodes))
  {
    exists p :: IsProcessing(nodes, p) && Eval(nodes, Given(nodes, inputs), p).None?
  }

  lemma {:induction false} BlamedHasNoValue(nodes: Nodes, inputs: Option<map<NodeId, Value>>, error: EngineError)
    requires Sortable(UpstreamGraph(nodes)) && BlamesMissingSource(nodes, inputs, error)
    ensures SomethingHasNoValue(nodes, inputs)
  {
    assert Eval(nodes, Given(nodes, inputs), error.upstream).None?;
    assert Eval(nodes, Given(nodes, inputs), error.node).None?;
  }

  lemma {:induction false} NoInputsNothingMissing(nodes: Nodes)
    requires Sortable(UpstreamGraph(nodes))
    ensures !SomethingHasNoValue(nodes, None)
  {
    forall p | IsProcessing(nodes, p)
      ensures Eval(nodes, Given(nodes, None), p).Some?
    {
      NoInputsAlwaysValue(nodes, p);
    }
  }

  /** A run fails for a missing value exactly when some processing node has a source ancestor absent from the inputs. */
  lemma {:induction false} FailsIffSourceAncestorMissing(nodes: Nodes, inputs: Option<map<NodeId, Value>>)
    requires Sortable(UpstreamGraph(nodes))
    ensures SomethingHasNoValue(nodes, inputs) <==>
            exists p, s :: p in nodes && s in nodes && nodes[s].upstreams == []
                           && Ancestor(UpstreamGraph(nodes), s, p) && inputs.Some? && s !in inputs.value
  {
    var g, given := UpstreamGraph(nodes), Given(nodes, inputs);
    if p :| IsProcessing(nodes, p) && Eval(nodes, given, p).None? {
      NoValueIffSourceMissing(nodes, given, p);
      var s :| IsSource(nodes, s) && s !in given && (s == p || Ancestor(g, s, p));
      assert s in nodes && nodes[s].upstreams == [] && Ancestor(g, s, p);
    }
    if p, s :| p in nodes && s in nodes && nodes[s].upstreams == [] && Ancestor(g, s, p) &&
               inputs.Some? && s !in inputs.value {
      if nodes[p].upstreams == [] {
        SourceHasNoAncestor(g, p);
      }
      NoValueIffSourceMissing(nodes, given, p);
      assert Eval(nodes, given, p).None?;
    }
  }

  /** Two runs of one pipeline give the same results, whatever orders their sorts found. */
  lemma {:induction false} ResultsIndependentOfOrder(nodes: Nodes, inputs: Option<map<NodeId, Value>>,
                                                     a: map<NodeId, Value>, b: map<NodeId, Value>)
    requires Sortable(UpstreamGraph(nodes))
    requires Computed(nodes, inputs, AllExecuted(nodes, inputs), a)
    requires Computed(nodes, inputs, AllExecuted(nodes, inputs), b)
    ensures a == b
  {
    forall v | v in a
      ensures a[v] == b[v]
    {
      if v in AllExecuted(nodes, inputs) {
        assert Eval(nodes, Given(nodes, inputs), v) == Some(a[v]) == Some(b[v]);
      }
    }
  }

  /** Without inputs, every node has a result: its function applied to the results of its upstreams. */
  lemma {:induction false} ResultsSatisfyEquations(nodes: Nodes, results: map<NodeId, Value>)
    requires Sortable(UpstreamGraph(nodes)) && Computed(nodes, None, AllExecuted(nodes, None), results)
    ensures results.Keys == nodes.Keys
    ensures forall v, u :: v in nodes && u in nodes[v].upstreams ==> u in results
    ensures forall v :: v in nodes ==> results[v] == nodes[v].fn(map u | u in nodes[v].upstreams :: results[u])
  {
    var given := Given(nodes, None);
    assert AllExecuted(nodes, None) == nodes.Keys;
    forall v | v in nodes
      ensures forall u :: u in nodes[v].upstreams ==> u in results
      ensures results[v] == nodes[v].fn(map u | u in nodes[v].upstreams :: results[u])
    {
      UpstreamsBelow(nodes, v);
      var values := map u | u in nodes[v].upstreams :: results[u];
      if nodes[v].upstreams == [] {
        assert values == map[];
      } else {
        EvalOfUpstreams(nodes, given, v, values);
      }
    }
  }

  /** The list of a configured interval after a run: what it would hold with the run's save, cut to its cap. */
  lemma {:induction false} HistoryAfterTrim(nodes: Nodes, inputs: Option<map<NodeId, Value>>, s: Store, t: Store,
                                            results: map<NodeId, Value>, times: map<NodeId, Times>, lo: int, hi: int,
                                            v: NodeId, i: string)
    requires HistoryAfterRun(nodes, inputs, s, t, results, times, lo, hi)
    requires v in nodes && i in nodes[v].intervals
    ensures ListedAt(t, v, i) ==
            Cut(SavedList(nodes, AllExecuted(nodes, inputs), s, results, times, v, i), TrimCap(nodes[v].intervals[i]))
    ensures Executes(nodes, inputs, v) ==>
              v in results && v in times && i in times[v] && lo <= times[v][i] <= hi
  {
    var done := AllExecuted(nodes, inputs);
    var saved: Store :| SavedRun(nodes, done, s, saved, results, times, lo, hi) && TrimmedRun(nodes, {}, saved, t);
    assert ListedAt(saved, v, i) == SavedList(nodes, done, s, results, times, v, i);
    assert Executes(nodes, inputs, v) ==> v in done;
  }

  lemma CutNatural(items: seq<Item>, n: nat)
    ensures |Cut(items, n)| <= n && Cut(items, n) <= items
    ensures n > 0 && items != [] ==> Cut(items, n) != [] && Cut(items, n)[0] == items[0]
  {
  }

  lemma SavedInFront(items: seq<Item>, item: Item, cap: int)
    requires cap > 0
    ensures Saved(items, item, cap) != [] && Saved(items, item, cap)[0] == item
  {
  }

  /** After a run every configured interval holds at most its cap, newest items first, the run's own result in front. */
  lemma {:induction false} HistoryIsCapped(nodes: Nodes, inputs: Option<map<NodeId, Value>>, s: Store, t: Store,
                                           results: map<NodeId, Value>, times: map<NodeId, Times>, lo: int, hi: int,
                                           v: NodeId, i: string)
    requires HistoryAfterRun(nodes, inputs, s, t, results, times, lo, hi)
    requires v in nodes && i in nodes[v].intervals && TrimCap(nodes[v].intervals[i]) >= 0
    ensures |ListedAt(t, v, i)| <= match nodes[v].intervals[i] case ObjectSetting(m) => m case DictSetting(_, _) => 100
    ensures ListedAt(t, v, i) <= SavedList(nodes, AllExecuted(nodes, inputs), s, results, times, v, i)
    ensures Executes(nodes, inputs, v) && TrimCap(nodes[v].intervals[i]) > 0 && SaveCap(nodes[v].intervals[i]) > 0 ==>
              && v in results && ListedAt(t, v, i) != [] && ListedAt(t, v, i)[0].value == results[v]
              && lo <= ListedAt(t, v, i)[0].timestamp <= hi
  {
    HistoryAfterTrim(nodes, inputs, s, t, results, times, lo, hi, v, i);
    var saved := SavedList(nodes, AllExecuted(nodes, inputs), s, results, times, v, i);
    var setting := nodes[v].intervals[i];
    CutNatural(saved, TrimCap(setting));
    if Executes(nodes, inputs, v) && SaveCap(setting) > 0 {
      var at := times[v][i];
      SavedInFront(ListedAt(s, v, i), Item(at, results[v], Expiry(at, SaveTtl(i, setting))), SaveCap(setting));
    }
  }

  /** The first nodes of the order, in `names`, have been computed and recorded. */
  ghost predicate RunSoFar(nodes: Nodes, inputs: Option<map<NodeId, Value>>, names: seq<NodeId>, s: Store, t: Store,
                           results: map<NodeId, Value>, times: map<NodeId, Times>, lo: int, hi: int)
    requires Sortable(UpstreamGraph(nodes))
  {
    && lo <= hi
    && Computed(nodes, inputs, ExecutedAmong(nodes, inputs, names), results)
    && SavedRun(nodes, ExecutedAmong(nodes, inputs, names), s, t, results, times, lo, hi)
  }

  lemma {:induction false} RunOneMoreNode(nodes: Nodes, inputs: Option<map<NodeId, Value>>, order: seq<NodeId>,
                                          k: nat, s: Store, t: Store, u: Store, results: map<NodeId, Value>,
                                          results': map<NodeId, Value>, times: map<NodeId, Times>, at: Times, lo: int,
                                          mid: int, hi: int)
    requires IsTopoOrder(UpstreamGraph(nodes), order) && Sortable(UpstreamGraph(nodes)) && k < |order|
    requires RunSoFar(nodes, inputs, order[..k], s, t, results, times, lo, mid)
    requires mid <= hi && InSpan(at, mid, hi)
    requires !Executes(nodes, inputs, order[k]) ==> results' == results && u == t
    requires Executes(nodes, inputs, order[k]) ==>
               && order[k] in results' && results' == results[order[k] := results'[order[k]]]
               && Computed(nodes, inputs, ExecutedAmong(nodes, inputs, order[..k]) + {order[k]}, results')
               && SavedFor(t, u, order[k], SaveSettings(nodes[order[k]]), {}, results'[order[k]], at)
    ensures RunSoFar(nodes, inputs, order[..k + 1], s, u, results',
                     if Executes(nodes, inputs, order[k]) then times[order[k] := at] else times, lo, hi)
  {
    UpstreamsAlreadyRun(nodes, inputs, order, k);
    var v := order[k];
    var done := ExecutedAmong(nodes, inputs, order[..k]);
    if Executes(nodes, inputs, v) {
      SavedRunOneMore(nodes, done, s, t, u, results, times, lo, mid, hi, v, results'[v], at);
    } else {
      assert ExecutedAmong(nodes, inputs, order[..k + 1]) == done;
    }
  }

  lemma {:induction false} AllHaveRun(nodes: Nodes, inputs: Option<map<NodeId, Value>>, order: seq<NodeId>)
    requires IsTopoOrder(UpstreamGraph(nodes), order)
    ensures ExecutedAmong(nodes, inputs, order) == AllExecuted(nodes, inputs)
  {
    assert forall v :: v in order <==> v in UpstreamGraph(nodes);
  }

  ghost function ExecutedAmong(nodes: Nodes, inputs: Option<map<NodeId, Value>>, names: seq<NodeId>): set<NodeId> {
    set v | v in names && Executes(nodes, inputs, v)
  }

  /** When the loop reaches a node, everything it needs has had its turn, and the node itself has not. */
  lemma {:induction false} UpstreamsAlreadyRun(nodes: Nodes, inputs: Option<map<NodeId, Value>>, order: seq<NodeId>,
                                               k: nat)
    requires IsTopoOrder(UpstreamGraph(nodes), order) && k < |order|
    ensures order[k] in nodes && order[k] !in order[..k]
    ensures forall u :: u in nodes[order[k]].upstreams ==>
              u in nodes && (Executes(nodes, inputs, u) ==> u in ExecutedAmong(nodes, inputs, order[..k]))
    ensures ExecutedAmong(nodes, inputs, order[..k + 1]) ==
            ExecutedAmong(nodes, inputs, order[..k]) + if Executes(nodes, inputs, order[k]) then {order[k]} else {}
  {
    var g := UpstreamGraph(nodes);
    assert order[k] in g;
    forall u | u in nodes[order[k]].upstreams
      ensures u in nodes && u in order[..k]
    {
      assert u in Deps(g, order[k]);
      assert u in order;
    }
    TakeOneMore(order, k);
  }

  lemma RestOfNames(names: seq<NodeId>, k: nat)
    requires Distinct(names) && k < |names|
    ensures names[k] in Elements(names[k..])
    ensures Elements(names[k + 1..]) == Elements(names[k..]) - {names[k]}
  {
    assert names[k..] == [names[k]] + names[k + 1..];
  }
}
