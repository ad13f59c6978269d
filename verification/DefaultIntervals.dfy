/**
 Completing a node's interval settings from the defaults of its pipeline
 (src/qmtl/sdk/pipeline.py:46-101).  Setting objects are shared: a default that a node
 lacks is put into the node's dictionary as the very object of the pipeline.
 */
module DefaultIntervals {
  import opened Outcomes

  type Period = Option<int>

  class IntervalSettings {
    const interval: Option<string>
    var period: Period

    constructor (interval: Option<string>, period: Period)
      ensures this.interval == interval && this.period == period
    {
      this.interval := interval;
      this.period := period;
    }
  }

  type Settings = map<string, IntervalSettings>

  class StreamSettings {
    var intervals: Settings

    constructor (intervals: Settings)
      ensures this.intervals == intervals
    {
      this.intervals := intervals;
    }
  }

  class Node {
    const name: string
    var streamSettings: StreamSettings?

    constructor (name: string, streamSettings: StreamSettings?)
      ensures this.name == name && this.streamSettings == streamSettings
    {
      this.name, this.streamSettings := name, streamSettings;
    }
  }

  datatype MergeError = NoIntervals | PeriodMissing(key: string) | IntervalMissing(key: string)

  datatype AddError = NameTaken | Rejected(error: MergeError)

  // ------------------------------------------------------------- the merge on periods

  /** A period of 1, or none, counts as not set. */
  predicate IsUnset(p: Period) {
    p == None || p == Some(1)
  }

  function Merge(own: map<string, Period>, defaults: map<string, Period>): map<string, Period> {
    map k | k in own.Keys + defaults.Keys ::
      if k !in own then defaults[k]
      else if k in defaults && IsUnset(own[k]) then defaults[k]
      else own[k]
  }

  /** Merging again changes nothing; explicit periods stay; every default key is present. */
  lemma MergeIdempotent(own: map<string, Period>, defaults: map<string, Period>)
    ensures Merge(Merge(own, defaults), defaults) == Merge(own, defaults)
    ensures Merge(defaults, defaults) == defaults
    ensures defaults.Keys <= Merge(own, defaults).Keys
  {
    var m := Merge(own, defaults);
    assert Merge(m, defaults).Keys == m.Keys;
    assert Merge(defaults, defaults).Keys == defaults.Keys;
  }

  /**
   `merged` are the periods of a node with the periods `own` under these defaults: a period other than 1 stays,
   one that is absent or 1 takes the default if there is one, and the missing keys come from the defaults.
   */
  ghost predicate Completes(own: map<string, Period>, defaults: map<string, Period>, merged: map<string, Period>) {
    && (forall k :: k in merged <==> k in own || k in defaults)
    && (forall k :: k in own && own[k].Some? && own[k].value != 1 ==> merged[k] == own[k])
    && (forall k :: k in own && k in defaults && (own[k] == None || own[k] == Some(1)) ==> merged[k] == defaults[k])
    && (forall k :: k in own && k !in defaults ==> merged[k] == own[k])
    && (forall k :: k in defaults && k !in own ==> merged[k] == defaults[k])
  }

  lemma MergeCompletes(own: map<string, Period>, defaults: map<string, Period>)
    ensures Completes(own, defaults, Merge(own, defaults))
  {
  }

  // ---------------------------------------------------------------- the merge on objects

  function Periods(settings: Settings): map<string, Period>
    reads settings.Values
  {
    map k | k in settings :: settings[k].period
  }

  /** No object stands under two different keys, within either dictionary or across them. */
  ghost predicate Tidy(own: Settings, defaults: Settings) {
    && (forall j, k :: j in own && k in own && j != k ==> own[j] != own[k])
    && (forall j, k :: j in defaults && k in defaults && j != k ==> defaults[j] != defaults[k])
    && (forall j, k :: j in own && k in defaults && j != k ==> own[j] != defaults[k])
  }

  /** The dictionary a node starts from: its own if it has entries, otherwise a copy of the defaults. */
  function Base(node: Node, defaults: Settings): Settings
    reads node, node.streamSettings
  {
    if node.streamSettings == null || node.streamSettings.intervals == map[] then defaults
    else node.streamSettings.intervals
  }

  function Filled(own: Settings, defaults: Settings): Settings {
    defaults + own
  }

  lemma FilledTidy(own: Settings, defaults: Settings)
    requires Tidy(own, defaults)
    ensures Tidy(Filled(own, defaults), defaults)
  {
  }

  lemma FilledTwice(own: Settings, defaults: Settings)
    ensures Filled(Filled(own, defaults), defaults) == Filled(own, defaults)
    ensures defaults.Keys <= Filled(own, defaults).Keys
    ensures Filled(own, defaults).Values <= own.Values + defaults.Values
  {
    forall s | s in Filled(own, defaults).Values
      ensures s in own.Values || s in defaults.Values
    {
      var k :| k in Filled(own, defaults) && Filled(own, defaults)[k] == s;
      assert if k in own then own[k] in own.Values else defaults[k] in defaults.Values;
    }
  }

  /** A period of 0 is falsy and counts as missing here. */
  predicate PeriodOk(p: Period) {
    p.Some? && p.value != 0
  }

  predicate IntervalOk(s: IntervalSettings) {
    s.interval.Some? && s.interval.value != ""
  }

  predicate PeriodsOk(settings: Settings)
    reads settings.Values
  {
    forall k :: k in settings ==> PeriodOk(settings[k].period)
  }

  /** At least one interval, and every one with its period and its interval field. */
  predicate Complete(settings: Settings)
    reads settings.Values
  {
    settings != map[] && PeriodsOk(settings) && forall k :: k in settings ==> IntervalOk(settings[k])
  }

  /** Not one setting is missing, and each has a period other than 0 and an interval that is not empty. */
  lemma CompleteExact(settings: Settings)
    ensures Complete(settings) <==>
            && |settings| > 0
            && (forall k :: k in settings ==> settings[k].period.Some? && settings[k].period.value != 0)
            && (forall k :: k in settings ==> settings[k].interval.Some? && |settings[k].interval.value| > 0)
  {
  }

  /** A pipeline that completes the settings of the nodes it registers. */
  class ConfiguredPipeline {
    const defaults: Settings
    var nodes: map<string, Node>
    var executionOrder: seq<string>

    constructor (defaults: Settings)
      ensures this.defaults == defaults && nodes == map[] && executionOrder == []
    {
      this.defaults := defaults;
      nodes, executionOrder := map[], [];
    }

    /** One turn of the loop over the defaults: add a missing key, or complete an unset period in place. */
    method FillKey(settings: StreamSettings, k: string, ghost own: Settings, ghost rest: set<string>)
      requires k in rest && rest <= defaults.Keys
      requires settings.intervals == PartlyFilled(own, defaults, rest)
      modifies settings, set j | j == k && j in own :: own[j]
      ensures settings.intervals == PartlyFilled(own, defaults, rest - {k})
      ensures Tidy(own, defaults) ==> Periods(defaults) == old(Periods(defaults))
      ensures Tidy(own, defaults) ==> Periods(own) == Completed(old(Periods(own)), old(Periods(defaults)), k)
    {
      PartlyFilledStep(own, defaults, rest, k);
      ghost var ownPeriods, defaultPeriods := Periods(own), Periods(defaults);
      if k !in settings.intervals {
        settings.intervals := settings.intervals[k := defaults[k]];
      } else {
        var period := settings.intervals[k].period;
        if IsUnset(period) {
          settings.intervals[k].period := defaults[k].period;
        }
        if Tidy(own, defaults) {
          PeriodsAre(defaults, defaultPeriods);
          PeriodsAre(own, Completed(ownPeriods, defaultPeriods, k));
        }
      }
    }

    /** The loop over the defaults. */
    method FillFromDefaults(settings: StreamSettings)
      modifies settings, settings.intervals.Values
      ensures settings.intervals == Filled(old(settings.intervals), defaults)
      ensures old(Tidy(settings.intervals, defaults)) ==>
                && Periods(defaults) == old(Periods(defaults))
                && Periods(settings.intervals) == Merge(old(Periods(settings.intervals)), old(Periods(defaults)))
    {
      ghost var own := settings.intervals;
      ghost var ownPeriods, defaultPeriods := Periods(own), Periods(defaults);
      var rest := defaults.Keys;
      assert defaults - rest == map[] && map[] + own == own;
      assert ownPeriods == Progress(ownPeriods, defaultPeriods, rest);
      while rest != {}
        invariant rest <= defaults.Keys
        invariant settings.intervals == PartlyFilled(own, defaults, rest)
        invariant Tidy(own, defaults) ==> Periods(defaults) == defaultPeriods
        invariant Tidy(own, defaults) ==> Periods(own) == Progress(ownPeriods, defaultPeriods, rest)
        decreases rest
      {
        var k :| k in rest;
        FillKey(settings, k, own, rest);
        ProgressStep(ownPeriods, defaultPeriods, rest, k);
        rest := rest - {k};
      }
      assert defaults - {} == defaults;
      if Tidy(own, defaults) {
        PeriodsOfFilled(own, defaults);
        MergeIsProgress(ownPeriods, defaultPeriods);
      }
    }

    /** Every merged setting needs a period, 0 counting as none. */
    method CheckPeriods(intervals: Settings) returns (error: Option<MergeError>)
      ensures error.None? <==> PeriodsOk(defaults + intervals)
      ensures error.Some? ==> error.value.PeriodMissing? && error.value.key in defaults + intervals
                              && !PeriodOk((defaults + intervals)[error.value.key].period)
    {
      var all := defaults + intervals;
      var rest := all.Keys;
      while rest != {}
        invariant rest <= all.Keys
        invariant forall k :: k in all && k !in rest ==> PeriodOk(all[k].period)
        decreases rest
      {
        var k :| k in rest;
        if !PeriodOk(all[k].period) {
          return Some(PeriodMissing(k));
        }
        rest := rest - {k};
      }
      return None;
    }

    method CheckIntervals(intervals: Settings) returns (error: Option<MergeError>)
      ensures error.None? <==> forall k :: k in intervals ==> IntervalOk(intervals[k])
      ensures error.Some? ==> error.value.IntervalMissing? && error.value.key in intervals
                              && !IntervalOk(intervals[error.value.key])
    {
      var rest := intervals.Keys;
      while rest != {}
        invariant rest <= intervals.Keys
        invariant forall k :: k in intervals && k !in rest ==> IntervalOk(intervals[k])
        decreases rest
      {
        var k :| k in rest;
        if !IntervalOk(intervals[k]) {
          return Some(IntervalMissing(k));
        }
        rest := rest - {k};
      }
      return None;
    }

    /** The two checking loops: periods of the merged settings first, then the interval fields. */
    method CheckSettings(intervals: Settings) returns (error: Option<MergeError>)
      requires defaults.Keys <= intervals.Keys && intervals != map[]
      ensures error.None? <==> Complete(intervals)
      ensures error.Some? ==> !error.value.NoIntervals? && error.value.key in intervals
      ensures error.Some? ==> (error.value.PeriodMissing? <==> !PeriodsOk(intervals))
      ensures error.Some? ==> if error.value.PeriodMissing? then !PeriodOk(intervals[error.value.key].period)
                              else !IntervalOk(intervals[error.value.key])
    {
      assert defaults + intervals == intervals;
      error := CheckPeriods(intervals);
      if error.Some? {
        return;
      }
      error := CheckIntervals(intervals);
    }

    /** The part that changes objects: a copy of the defaults for a node without entries, then the fill-in loop. */
    method MergeDefaults(node: Node) returns (settings: StreamSettings?)
      modifies node, node.streamSettings, Base(node, defaults).Values
      ensures settings == null <==> old(Base(node, defaults)) == map[]
      ensures settings == null ==> node.streamSettings == old(node.streamSettings) && Base(node, defaults) == map[]
      ensures node.streamSettings == old(node.streamSettings) || fresh(node.streamSettings)
      ensures settings != null ==>
                && node.streamSettings == settings
                && settings.intervals == Filled(old(Base(node, defaults)), defaults)
      ensures settings != null && old(Tidy(Base(node, defaults), defaults)) ==>
                && Periods(defaults) == old(Periods(defaults))
                && Periods(settings.intervals) == Merge(old(Periods(Base(node, defaults))), old(Periods(defaults)))
    {
      ghost var base := Base(node, defaults);
      if node.streamSettings == null {
        if defaults == map[] {
          return null;
        }
        node.streamSettings := new StreamSettings(defaults);
      }
      settings := node.streamSettings;
      if settings.intervals == map[] {
        if defaults == map[] {
          return null;
        }
        settings := new StreamSettings(defaults);
        node.streamSettings := settings;
        MergeIdempotent(Periods(defaults), Periods(defaults));
        assert Filled(defaults, defaults) == defaults;
      } else {
        FillFromDefaults(settings);
      }
    }

    /** Complete the settings of a node, or reject it; a rejected node may have been changed already. */
    method ApplyDefaultIntervals(node: Node) returns (error: Option<MergeError>)
      modifies node, node.streamSettings, Base(node, defaults).Values
      ensures error == Some(NoIntervals) <==> old(Base(node, defaults)) == map[]
      ensures error == Some(NoIntervals) ==>
                node.streamSettings == old(node.streamSettings) && Base(node, defaults) == map[]
      ensures node.streamSettings == old(node.streamSettings) || fresh(node.streamSettings)
      ensures error != Some(NoIntervals) ==>
                node.streamSettings != null
                && node.streamSettings.intervals == Filled(old(Base(node, defaults)), defaults)
      ensures error != Some(NoIntervals) && old(Tidy(Base(node, defaults), defaults)) ==>
                && Periods(defaults) == old(Periods(defaults))
                && Periods(node.streamSettings.intervals) ==
                   Merge(old(Periods(Base(node, defaults))), old(Periods(defaults)))
                && Completes(old(Periods(Base(node, defaults))), old(Periods(defaults)),
                             Periods(node.streamSettings.intervals))
      ensures error == Some(NoIntervals) <==>
              defaults == map[] && old(node.streamSettings == null || node.streamSettings.intervals == map[])
      ensures error != Some(NoIntervals) ==>
                var own := old(if node.streamSettings == null then map[] else node.streamSettings.intervals);
                forall k :: (k in node.streamSettings.intervals <==> k in own || k in defaults)
                            && (k in own ==> node.streamSettings.intervals[k] == own[k])
                            && (k !in own && k in defaults ==> node.streamSettings.intervals[k] == defaults[k])
      ensures error.None? <==> (node.streamSettings != null && Complete(node.streamSettings.intervals))
      ensures error.Some? && error.value.PeriodMissing? <==>
              old(Base(node, defaults)) != map[] && !PeriodsOk(node.streamSettings.intervals)
    {
      var settings := MergeDefaults(node);
      if settings == null {
        return Some(NoIntervals);
      }
      MergeCompletes(old(Periods(Base(node, defaults))), old(Periods(defaults)));
      error := CheckSettings(settings.intervals);
    }

    /** Applying the defaults to settings that a merge leaves as they are changes nothing, whatever the verdict. */
    method Reapply(node: Node) returns (error: Option<MergeError>)
      requires node.streamSettings != null && node.streamSettings.intervals != map[]
      requires Tidy(node.streamSettings.intervals, defaults) && defaults.Keys <= node.streamSettings.intervals.Keys
      requires Merge(Periods(node.streamSettings.intervals), Periods(defaults)) ==
               Periods(node.streamSettings.intervals)
      modifies node, node.streamSettings, node.streamSettings.intervals.Values
      ensures node.streamSettings != null && node.streamSettings.intervals == old(node.streamSettings.intervals)
      ensures Periods(node.streamSettings.intervals) == old(Periods(node.streamSettings.intervals))
      ensures Periods(defaults) == old(Periods(defaults))
      ensures error.None? <==> old(Complete(node.streamSettings.intervals))
      ensures error.Some? ==> (error.value.PeriodMissing? <==> old(!PeriodsOk(node.streamSettings.intervals)))
      ensures error != Some(NoIntervals)
    {
      ghost var own := node.streamSettings.intervals;
      ghost var periods := Periods(own);
      SamePeriodsComplete(own, periods);
      assert Filled(own, defaults) == own;
      error := ApplyDefaultIntervals(node);
      SamePeriodsComplete(own, periods);
    }

    /**
     Applying the defaults twice: the verdict is the same both times, and the node has after both applications
     the dictionary and the periods of a single merge, the defaults being as they were.
     */
    method ApplyTwice(node: Node) returns (first: Option<MergeError>, second: Option<MergeError>)
      requires Tidy(Base(node, defaults), defaults)
      modifies node, node.streamSettings, Base(node, defaults).Values, defaults.Values
      ensures first.None? <==> second.None?
      ensures first == Some(NoIntervals) <==> second == Some(NoIntervals)
      ensures first.Some? && second.Some? ==> (first.value.PeriodMissing? <==> second.value.PeriodMissing?)
      ensures first != Some(NoIntervals) ==>
                && node.streamSettings != null
                && node.streamSettings.intervals == Filled(old(Base(node, defaults)), defaults)
                && Periods(node.streamSettings.intervals) ==
                   Merge(old(Periods(Base(node, defaults))), old(Periods(defaults)))
                && Periods(defaults) == old(Periods(defaults))
    {
      ghost var base := Base(node, defaults);
      ghost var basePeriods, defaultPeriods := Periods(base), Periods(defaults);
      first := ApplyDefaultIntervals(node);
      if first == Some(NoIntervals) {
        second := ApplyDefaultIntervals(node);
      } else {
        FilledTidy(base, defaults);
        FilledTwice(base, defaults);
        MergeIdempotent(basePeriods, defaultPeriods);
        second := Reapply(node);
      }
    }

    method Register(node: Node)
      modifies `nodes, `executionOrder
      ensures nodes == old(nodes)[node.name := node] && executionOrder == []
      ensures node.streamSettings == old(node.streamSettings) && Periods(defaults) == old(Periods(defaults))
      ensures var settings := node.streamSettings;
              settings != null ==>
                && settings.intervals == old(settings.intervals)
                && Periods(settings.intervals) == old(Periods(settings.intervals))
                && Complete(settings.intervals) == old(Complete(settings.intervals))
    {
      nodes := nodes[node.name := node];
      executionOrder := [];
    }

    method AddNewNode(node: Node) returns (error: Option<MergeError>)
      modifies `nodes, `executionOrder, node, node.streamSettings, Base(node, defaults).Values
      ensures if error.Some? then nodes == old(nodes) && executionOrder == old(executionOrder)
              else nodes == old(nodes)[node.name := node] && executionOrder == []
      ensures error == Some(NoIntervals) <==> old(Base(node, defaults)) == map[]
      ensures error != Some(NoIntervals) ==>
                && node.streamSettings != null
                && node.streamSettings.intervals == Filled(old(Base(node, defaults)), defaults)
                && (error.None? <==> Complete(node.streamSettings.intervals))
                && (old(Tidy(Base(node, defaults), defaults)) ==>
                      Periods(defaults) == old(Periods(defaults)) &&
                      Periods(node.streamSettings.intervals) ==
                      Merge(old(Periods(Base(node, defaults))), old(Periods(defaults))))
    {
      error := ApplyDefaultIntervals(node);
      if error.None? {
        Register(node);
      }
    }

    /**
     A taken name is refused before anything is touched.  A node whose settings are rejected is not registered,
     but keeps what the merge has put into it; an accepted node is registered and the cached order dropped.
     */
    method AddNode(node: Node) returns (error: Option<AddError>)
      modifies `nodes, `executionOrder, node, node.streamSettings, Base(node, defaults).Values
      ensures error == Some(NameTaken) <==> node.name in old(nodes)
      ensures error == Some(NameTaken) ==>
                unchanged(node) && (node.streamSettings != null ==> unchanged(node.streamSettings))
                && unchanged(old(Base(node, defaults).Values))
      ensures if error.Some? then nodes == old(nodes) && executionOrder == old(executionOrder)
              else nodes == old(nodes)[node.name := node] && executionOrder == []
      ensures error == Some(Rejected(NoIntervals)) <==>
              node.name !in old(nodes) && old(Base(node, defaults)) == map[]
      ensures error != Some(NameTaken) && error != Some(Rejected(NoIntervals)) ==>
                && node.streamSettings != null
                && node.streamSettings.intervals == Filled(old(Base(node, defaults)), defaults)
                && (error.None? <==> Complete(node.streamSettings.intervals))
                && (old(Tidy(Base(node, defaults), defaults)) ==>
                      Periods(defaults) == old(Periods(defaults)) &&
                      Periods(node.streamSettings.intervals) ==
                      Merge(old(Periods(Base(node, defaults))), old(Periods(defaults))))
    {
      if node.name in nodes {
        return Some(NameTaken);
      }
      var rejected := AddNewNode(node);
      error := if rejected.Some? then Some(Rejected(rejected.value)) else None;
    }
  }

  lemma SamePeriodsComplete(settings: Settings, periods: map<string, Period>)
    requires Periods(settings) == periods
    ensures PeriodsOk(settings) <==> forall k :: k in settings ==> PeriodOk(periods[k])
  {
    assert forall k :: k in settings ==> periods[k] == settings[k].period;
  }

  lemma PartlyFilledStep(own: Settings, defaults: Settings, rest: set<string>, k: string)
    requires k in rest && rest <= defaults.Keys
    ensures k in PartlyFilled(own, defaults, rest) <==> k in own
    ensures k in own ==> PartlyFilled(own, defaults, rest)[k] == own[k]
    ensures PartlyFilled(own, defaults, rest - {k}) ==
            if k in own then PartlyFilled(own, defaults, rest) else PartlyFilled(own, defaults, rest)[k := defaults[k]]
  {
  }

  lemma PeriodsAre(settings: Settings, periods: map<string, Period>)
    requires periods.Keys == settings.Keys && forall j :: j in settings ==> settings[j].period == periods[j]
    ensures Periods(settings) == periods
  {
  }

  lemma PeriodsOfFilled(own: Settings, defaults: Settings)
    ensures Periods(Filled(own, defaults)) == Periods(defaults) + Periods(own)
  {
  }

  lemma MergeIsProgress(own: map<string, Period>, defaults: map<string, Period>)
    ensures defaults + Progress(own, defaults, {}) == Merge(own, defaults)
  {
  }

  /** One key of the node's own periods completed. */
  function Completed(own: map<string, Period>, defaults: map<string, Period>, k: string): map<string, Period> {
    if k in own && k in defaults && IsUnset(own[k]) then own[k := defaults[k]] else own
  }

  lemma ProgressStep(own: map<string, Period>, defaults: map<string, Period>, rest: set<string>, k: string)
    requires k in rest && k in defaults
    ensures Completed(Progress(own, defaults, rest), defaults, k) == Progress(own, defaults, rest - {k})
  {
  }

  /** The dictionary while the keys in `rest` are still to be filled in. */
  function PartlyFilled(own: Settings, defaults: Settings, rest: set<string>): Settings {
    (defaults - rest) + own
  }

  /** The node's own periods while the keys in `rest` are still to be completed. */
  function Progress(own: map<string, Period>, defaults: map<string, Period>, rest: set<string>): map<string, Period> {
    map k | k in own :: if k in defaults && k !in rest && IsUnset(own[k]) then defaults[k] else own[k]
  }
}
