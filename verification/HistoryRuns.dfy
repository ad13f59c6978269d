/**
 Whole runs of the interval history: the two stores never disagree, and cleaning up
 never costs a live item.
 */
module HistoryRuns {
  import opened Outcomes
  import opened Pipelines
  import opened HistoryStore

  const NOTHING_SAVED := Store(map[], map[])

  function Run(events: seq<Timed>): Store {
    if events == [] then NOTHING_SAVED else Step(Run(events[..|events| - 1]), events[|events| - 1])
  }

  lemma RunOneMore(events: seq<Timed>, e: Timed)
    ensures Run(events + [e]) == Step(Run(events), e)
  {
    assert (events + [e])[..|events|] == events;
  }

  // ------------------------------------------------------------- the two stores agree

  predicate ColonFree(s: string) {
    ':' !in s
  }

  /** Both stores hold the same list, or none, for every pair of colon-free names. */
  ghost predicate Agree(s: Store) {
    forall n, i :: ColonFree(n) && ColonFree(i) ==> CacheGet(s.cache, n, i) == NestedGet(s.history, n, i)
  }

  lemma ColonPosition(n: string, i: string, k: int)
    requires ColonFree(n) && ColonFree(i) && 0 <= k < |Key(n, i)|
    ensures Key(n, i)[k] == ':' <==> k == |n|
  {
    assert k < |n| ==> Key(n, i)[k] == n[k];
    assert k > |n| ==> Key(n, i)[k] == i[k - |n| - 1];
  }

  /** A key made from colon-free names cannot be made from any others. */
  lemma KeyInjective(n: string, i: string, n': string, i': string)
    requires ColonFree(n) && ColonFree(i)
    ensures Key(n', i') == Key(n, i) <==> n' == n && i' == i
  {
    if Key(n', i') == Key(n, i) {
      assert Key(n', i')[|n'|] == ':';
      ColonPosition(n, i, |n'|);
      assert n' == Key(n', i')[..|n'|] && n == Key(n, i)[..|n|];
      assert i' == Key(n', i')[|n'| + 1..] && i == Key(n, i)[|n| + 1..];
    }
  }

  /** Clearing deletes a colon-free entry from the cache exactly when its names match the arguments. */
  lemma ClearsMatching(n: string, i: string, who: Option<string>, which: Option<string>)
    requires ColonFree(n) && ColonFree(i)
    ensures ClearsKey(Key(n, i), who, which) <==>
            (who.Some? ==> who.value == n) && (which.Some? ==> which.value == i)
  {
    var key := Key(n, i);
    if who.Some? && which.Some? {
      KeyInjective(n, i, who.value, which.value);
    } else if who.Some? {
      var m := who.value;
      if StartsWith(key, m + ":") {
        assert key[|m|] == (m + ":")[|m|] == ':';
        ColonPosition(n, i, |m|);
        assert m == (m + ":")[..|m|] == key[..|m|] == n;
      }
      assert n + ":" == key[..|n| + 1];
    } else if which.Some? {
      var j := which.value;
      if EndsWith(key, ":" + j) {
        var at := |key| - |j| - 1;
        assert key[at] == key[at..][0] == ':';
        ColonPosition(n, i, at);
        assert j == (":" + j)[1..] == key[at..][1..] == key[|n| + 1..] == i;
      }
      assert key[|n|..] == ":" + i;
    }
  }

  lemma SaveAgrees(s: Store, n: string, i: string, m: string, j: string, item: Item, cap: int)
    requires ColonFree(n) && ColonFree(i) && CacheGet(s.cache, n, i) == NestedGet(s.history, n, i)
    ensures CacheGet(CacheSave(s.cache, m, j, item, cap), n, i) ==
            NestedGet(NestedSave(s.history, m, j, item, cap), n, i)
  {
    KeyInjective(n, i, m, j);
  }

  lemma CleanAgrees(s: Store, n: string, i: string, t: int)
    requires CacheGet(s.cache, n, i) == NestedGet(s.history, n, i)
    ensures CacheGet(CleanLists(s.cache, t), n, i) == NestedGet(CleanNested(s.history, t), n, i)
  {
    if n in s.history && i in s.history[n] && LiveAt(s.history[n][i], t) != [] {
      assert i in CleanLists(s.history[n], t);
      assert CleanLists(s.history[n], t) != map[];
    }
  }

  lemma ClearAgrees(s: Store, n: string, i: string, who: Option<string>, which: Option<string>)
    requires ColonFree(n) && ColonFree(i) && CacheGet(s.cache, n, i) == NestedGet(s.history, n, i)
    ensures CacheGet(CacheClear(s.cache, who, which), n, i) == NestedGet(NestedClear(s.history, who, which), n, i)
  {
    ClearsMatching(n, i, who, which);
  }

  lemma TrimAgrees(s: Store, n: string, i: string, m: string, j: string, cap: int)
    requires ColonFree(n) && ColonFree(i) && CacheGet(s.cache, n, i) == NestedGet(s.history, n, i)
    ensures CacheGet(CacheTrim(s.cache, m, j, cap), n, i) == NestedGet(NestedTrim(s.history, m, j, cap), n, i)
  {
    KeyInjective(n, i, m, j);
  }

  lemma AgreeStep(s: Store, e: Timed)
    requires Agree(s)
    ensures Agree(Step(s, e))
  {
    forall n, i | ColonFree(n) && ColonFree(i)
      ensures CacheGet(Step(s, e).cache, n, i) == NestedGet(Step(s, e).history, n, i)
    {
      match e.op
      case Save(m, j, data, cap, ttl) => SaveAgrees(s, n, i, m, j, Item(e.time, data, Expiry(e.time, ttl)), cap);
      case Cleanup => CleanAgrees(s, n, i, e.time);
      case Clear(who, which) => ClearAgrees(s, n, i, who, which);
      case TrimTo(m, j, cap) => TrimAgrees(s, n, i, m, j, cap);
    }
  }

  /** After any run, with any arguments, the fallback to the cache could never give another answer. */
  lemma {:induction false} StoresAgree(events: seq<Timed>)
    ensures Agree(Run(events))
  {
    if events != [] {
      StoresAgree(events[..|events| - 1]);
      AgreeStep(Run(events[..|events| - 1]), events[|events| - 1]);
    }
  }

  /** Reading either store alone gives what the engine reads. */
  lemma FallbackNeverMatters(events: seq<Timed>, n: string, i: string)
    requires ColonFree(n) && ColonFree(i)
    ensures Stored(Run(events), n, i) == Items(NestedGet(Run(events).history, n, i))
    ensures Stored(Run(events), n, i) == Items(CacheGet(Run(events).cache, n, i))
  {
    StoresAgree(events);
  }

  /** Saving under a node name with a colon and clearing the part before it empties the cache only. */
  lemma ColonInNode(n: string, i: string, k: nat, data: Value)
    requires k < |n| && n[k] == ':'
    ensures var s := Run([At(1, Save(n, i, data, 1, None)), At(2, Clear(Some(n[..k]), None))]);
            CacheGet(s.cache, n, i).None? && NestedGet(s.history, n, i).Some?
  {
    SavedThenCleared(n, i, data, Some(n[..k]), None);
    assert n[..k] + ":" == Key(n, i)[..k + 1];
  }

  /** Likewise for an interval with a colon and the part after it. */
  lemma ColonInInterval(n: string, i: string, k: nat, data: Value)
    requires k < |i| && i[k] == ':'
    ensures var s := Run([At(1, Save(n, i, data, 1, None)), At(2, Clear(None, Some(i[k + 1..])))]);
            CacheGet(s.cache, n, i).None? && NestedGet(s.history, n, i).Some?
  {
    SavedThenCleared(n, i, data, None, Some(i[k + 1..]));
    assert ":" + i[k + 1..] == i[k..] == Key(n, i)[|n| + 1 + k..];
  }

  lemma SavedThenCleared(n: string, i: string, data: Value, who: Option<string>, which: Option<string>)
    ensures var save, clear := At(1, Save(n, i, data, 1, None)), At(2, Clear(who, which));
            Run([save, clear]) == Step(Step(NOTHING_SAVED, save), clear)
  {
    var save, clear := At(1, Save(n, i, data, 1, None)), At(2, Clear(who, which));
    RunOneMore([], save);
    RunOneMore([save], clear);
    assert [] + [save] == [save] && [save] + [clear] == [save, clear];
  }

  /** A node and an interval have the same list in both stores after every run exactly when neither name has a colon. */
  lemma AlwaysAgreeIffColonFree(n: string, i: string)
    ensures (forall events :: CacheGet(Run(events).cache, n, i) == NestedGet(Run(events).history, n, i))
            <==> ColonFree(n) && ColonFree(i)
  {
    if ColonFree(n) && ColonFree(i) {
      forall events
        ensures CacheGet(Run(events).cache, n, i) == NestedGet(Run(events).history, n, i)
      {
        StoresAgree(events);
      }
    } else if !ColonFree(n) {
      var k :| 0 <= k < |n| && n[k] == ':';
      ColonInNode(n, i, k, Value(""));
    } else {
      var k :| 0 <= k < |i| && i[k] == ':';
      ColonInInterval(n, i, k, Value(""));
    }
  }

  // --------------------------------------------------------- one list through a run

  /** The entry for (n, i), in the cache or in the nested store. */
  function Entry(s: Store, inCache: bool, n: string, i: string): Option<seq<Item>> {
    if inCache then CacheGet(s.cache, n, i) else NestedGet(s.history, n, i)
  }

  function Listed(s: Store, n: string, i: string): seq<Item> {
    Items(NestedGet(s.history, n, i))
  }

  function NewItem(e: Timed): Item
    requires e.op.Save?
  {
    Item(e.time, e.op.data, Expiry(e.time, e.op.ttl))
  }

  /** Does the operation concern the entry for (n, i)?  The cache only compares keys. */
  predicate Hits(op: Op, inCache: bool, n: string, i: string) {
    match op
    case Save(m, j, _, _, _) => if inCache then Key(m, j) == Key(n, i) else m == n && j == i
    case Cleanup => true
    case Clear(who, which) =>
      if inCache then ClearsKey(Key(n, i), who, which)
      else (who.Some? ==> who.value == n) && (which.Some? ==> which.value == i)
    case TrimTo(m, j, _) => if inCache then Key(m, j) == Key(n, i) else m == n && j == i
  }

  /** What an operation does to a list that it hits, a missing list counting as empty. */
  function ListStep(l: seq<Item>, e: Timed): seq<Item> {
    match e.op
    case Save(_, _, _, cap, _) => Saved(l, NewItem(e), cap)
    case Cleanup => LiveAt(l, e.time)
    case Clear(_, _) => []
    case TrimTo(_, _, cap) => Cut(l, cap)
  }

  lemma ListOfStep(s: Store, e: Timed, inCache: bool, n: string, i: string)
    ensures Items(Entry(Step(s, e), inCache, n, i)) ==
            var l := Items(Entry(s, inCache, n, i)); if Hits(e.op, inCache, n, i) then ListStep(l, e) else l
  {
    match e.op
    case Cleanup =>
      if n in s.history && i in s.history[n] && LiveAt(s.history[n][i], e.time) != [] {
        assert i in CleanLists(s.history[n], e.time);
        assert CleanLists(s.history[n], e.time) != map[];
      }
    case _ =>
  }

  // ------------------------------------------------------- cleanup loses nothing live

  /** `b` starts with `a` minus some items dead at `t`, and may go on with older items. */
  ghost predicate Thinned(a: seq<Item>, b: seq<Item>, t: int) {
    a == []
    || (b != [] && b[0] == a[0] && Thinned(a[1..], b[1..], t))
    || (!Live(a[0], t) && Thinned(a[1..], b, t))
  }

  lemma {:induction false} ThinnedLive(a: seq<Item>, b: seq<Item>, t: int)
    requires Thinned(a, b, t)
    ensures LiveAt(a, t) <= LiveAt(b, t)
  {
    if a == [] {
    } else if b != [] && b[0] == a[0] && Thinned(a[1..], b[1..], t) {
      ThinnedLive(a[1..], b[1..], t);
      PrefixUnderFront(if Live(a[0], t) then [a[0]] else [], LiveAt(a[1..], t), LiveAt(b[1..], t));
    } else {
      ThinnedLive(a[1..], b, t);
      assert LiveAt(a, t) == LiveAt(a[1..], t);
    }
  }

  lemma PrefixUnderFront(front: seq<Item>, a: seq<Item>, b: seq<Item>)
    requires a <= b
    ensures front + a <= front + b
  {
  }

  /** Time only makes more items dead. */
  lemma {:induction false} ThinnedLater(a: seq<Item>, b: seq<Item>, t: int, t': int)
    requires Thinned(a, b, t) && t <= t'
    ensures Thinned(a, b, t')
  {
    if a == [] {
    } else if b != [] && b[0] == a[0] && Thinned(a[1..], b[1..], t) {
      ThinnedLater(a[1..], b[1..], t, t');
    } else {
      ThinnedLater(a[1..], b, t, t');
    }
  }

  lemma {:induction false} ThinnedShorter(a: seq<Item>, b: seq<Item>, t: int, c: nat)
    requires c <= |b| && Thinned(a, b[..c], t)
    ensures Thinned(a, b, t)
    decreases |a|
  {
    if a == [] {
    } else if c > 0 && b[0] == a[0] && Thinned(a[1..], b[..c][1..], t) {
      assert b[..c][1..] == b[1..][..c - 1];
      ThinnedShorter(a[1..], b[1..], t, c - 1);
    } else {
      ThinnedShorter(a[1..], b, t, c);
    }
  }

  lemma {:induction false} ThinnedCut(a: seq<Item>, b: seq<Item>, t: int, c: nat)
    requires Thinned(a, b, t)
    ensures Thinned(Cut(a, c), Cut(b, c), t)
    decreases |a|
  {
    if a == [] || c == 0 {
    } else if b != [] && b[0] == a[0] && Thinned(a[1..], b[1..], t) {
      ThinnedCut(a[1..], b[1..], t, c - 1);
      CutCons(a, c);
      CutCons(b, c);
    } else {
      ThinnedCut(a[1..], b, t, c - 1);
      CutCons(a, c);
      var n := |Cut(b, c - 1)|;
      assert Cut(b, c - 1) == Cut(b, c)[..n];
      ThinnedShorter(Cut(a[1..], c - 1), Cut(b, c), t, n);
      assert Cut(a, c)[1..] == Cut(a[1..], c - 1);
    }
  }

  lemma CutCons(s: seq<Item>, c: nat)
    requires s != [] && c > 0
    ensures Cut(s, c) == [s[0]] + Cut(s[1..], c - 1)
  {
  }

  lemma {:induction false} ThinnedClean(a: seq<Item>, b: seq<Item>, t: int)
    requires Thinned(a, b, t)
    ensures Thinned(a, LiveAt(b, t), t)
    decreases |a|
  {
    if a == [] {
    } else if b != [] && b[0] == a[0] && Thinned(a[1..], b[1..], t) {
      ThinnedClean(a[1..], b[1..], t);
      if Live(b[0], t) {
        assert LiveAt(b, t)[1..] == LiveAt(b[1..], t);
      } else {
        assert LiveAt(b, t) == LiveAt(b[1..], t);
      }
    } else {
      ThinnedClean(a[1..], b, t);
    }
  }

  lemma ThinnedSaved(a: seq<Item>, b: seq<Item>, t: int, item: Item, cap: int)
    requires Thinned(a, b, t) && cap >= 0
    ensures Thinned(Saved(a, item, cap), Saved(b, item, cap), t)
  {
    var a', b' := [item] + a, [item] + b;
    assert a'[1..] == a && b'[1..] == b;
    assert Thinned(a', b', t);
    ThinnedCut(a', b', t, cap);
    assert Saved(a, item, cap) == Cut(a', cap) && Saved(b, item, cap) == Cut(b', cap);
  }

  ghost predicate Monotone(events: seq<Timed>) {
    forall i, j :: 0 <= i < j < |events| ==> events[i].time <= events[j].time
  }

  ghost predicate CapsNatural(events: seq<Timed>) {
    forall e :: e in events ==> (e.op.Save? || e.op.TrimTo? ==> e.op.cap >= 0)
  }

  /** The same run with every cleanup left out. */
  function NoCleanups(events: seq<Timed>): seq<Timed> {
    if events == [] then []
    else
      var last := events[|events| - 1];
      NoCleanups(events[..|events| - 1]) + if last.op.Cleanup? then [] else [last]
  }

  lemma ThinnedStep(a: seq<Item>, b: seq<Item>, e: Timed)
    requires Thinned(a, b, e.time)
    requires e.op.Save? || e.op.TrimTo? ==> e.op.cap >= 0
    ensures Thinned(if e.op.Cleanup? then a else ListStep(a, e), ListStep(b, e), e.time)
  {
    match e.op
    case Save(_, _, _, cap, _) => ThinnedSaved(a, b, e.time, NewItem(e), cap);
    case Cleanup => ThinnedClean(a, b, e.time);
    case Clear(_, _) =>
    case TrimTo(_, _, cap) => ThinnedCut(a, b, e.time, cap);
  }

  /** In either store, cleaning up thins the list out, and creates no entry. */
  lemma {:induction false} CleanupThins(events: seq<Timed>, inCache: bool, n: string, i: string, t: int)
    requires Monotone(events) && CapsNatural(events)
    requires forall e :: e in events ==> e.time <= t
    ensures var plain, cleaned := Entry(Run(NoCleanups(events)), inCache, n, i), Entry(Run(events), inCache, n, i);
            Thinned(Items(plain), Items(cleaned), t) && (cleaned.Some? ==> plain.Some?)
    decreases |events|
  {
    if events != [] {
      var rest, last := events[..|events| - 1], events[|events| - 1];
      CleanupThins(rest, inCache, n, i, last.time);
      var plain, cleaned := Run(NoCleanups(rest)), Run(rest);
      var a, b := Items(Entry(plain, inCache, n, i)), Items(Entry(cleaned, inCache, n, i));
      ThinnedStep(a, b, last);
      ListOfStep(cleaned, last, inCache, n, i);
      EntryOfStep(cleaned, last, inCache, n, i);
      if last.op.Cleanup? {
        assert NoCleanups(rest) + [] == NoCleanups(rest);
      } else {
        RunOneMore(NoCleanups(rest), last);
        ListOfStep(plain, last, inCache, n, i);
        EntryOfStep(plain, last, inCache, n, i);
      }
      ThinnedLater(Items(Entry(Run(NoCleanups(events)), inCache, n, i)),
                   Items(Entry(Run(events), inCache, n, i)), last.time, t);
    }
  }

  /** Saving creates an entry, clearing deletes it, cleaning up may delete it, and nothing else does either. */
  lemma EntryOfStep(s: Store, e: Timed, inCache: bool, n: string, i: string)
    ensures var before, after := Entry(s, inCache, n, i).Some?, Entry(Step(s, e), inCache, n, i).Some?;
            match e.op
            case Save(_, _, _, _, _) => after == (before || Hits(e.op, inCache, n, i))
            case Cleanup => after ==> before
            case Clear(_, _) => after == (before && !Hits(e.op, inCache, n, i))
            case TrimTo(_, _, _) => after == before
  {
  }

  lemma CutPrefix(a: seq<Item>, b: seq<Item>, c: int)
    requires a <= b
    ensures Cut(a, c) <= Cut(b, c)
  {
  }

  /**
   Under a monotone clock, what is readable without cleanups is a prefix of what is readable
   when cleanups run at any moments, whatever limit the reader sets, and for any names.
   */
  lemma {:induction false} CleanupNeverLosesLiveData(events: seq<Timed>, n: string, i: string, t: int, limit: int)
    requires Monotone(events) && CapsNatural(events)
    requires forall e :: e in events ==> e.time <= t
    ensures Read(Run(NoCleanups(events)), n, i, limit, t) <= Read(Run(events), n, i, limit, t)
  {
    var plain, cleaned := Run(NoCleanups(events)), Run(events);
    CleanupThins(events, false, n, i, t);
    CleanupThins(events, true, n, i, t);
    var inCache := Entry(plain, false, n, i).None?;
    ThinnedLive(Items(Entry(plain, inCache, n, i)), Items(Entry(cleaned, inCache, n, i)), t);
    CutPrefix(LiveAt(Stored(plain, n, i), t), LiveAt(Stored(cleaned, n, i), t), limit);
  }

  // ------------------------------------------------------------------- negative caps

  /** No cap but `cap` itself is negative. */
  ghost predicate OtherCapsNatural(events: seq<Timed>, cap: int) {
    forall e :: e in events && (e.op.Save? || e.op.TrimTo?) ==> e.op.cap >= 0 || e.op.cap == cap
  }

  /** May `cap` be used, in saves and trims, without a cleanup ever costing a reader a live item? */
  ghost predicate CapSafe(cap: int) {
    forall events: seq<Timed>, n, i, t, limit ::
      Monotone(events) && OtherCapsNatural(events, cap) && (forall e :: e in events ==> e.time <= t) ==>
        Read(Run(NoCleanups(events)), n, i, limit, t) <= Read(Run(events), n, i, limit, t)
  }

  function Repeated<T>(x: T, k: nat): seq<T> {
    seq(k, _ => x)
  }

  lemma RepeatedOneMore<T>(x: T, k: nat)
    ensures [x] + Repeated(x, k) == Repeated(x, k + 1)
  {
  }

  lemma NoCleanupsOneMore(events: seq<Timed>, last: Timed)
    ensures NoCleanups(events + [last]) == NoCleanups(events) + if last.op.Cleanup? then [] else [last]
  {
    assert (events + [last])[..|events|] == events;
  }

  /** Saves under the cap `k` whose items are dead at once. */
  ghost predicate Filling(events: seq<Timed>, k: nat) {
    forall e :: e in events ==> e.time == 1 && e.op.Save? && e.op.cap == k && e.op.ttl == Some(0)
  }

  /** They fill the list. */
  lemma {:induction false} DeadSaves(n: string, i: string, data: Value, cap: nat, k: nat) returns (events: seq<Timed>)
    requires k <= cap
    ensures Filling(events, cap) && NoCleanups(events) == events
    ensures Listed(Run(events), n, i) == Repeated(Item(1, data, Some(1)), k)
  {
    events := [];
    if k > 0 {
      var before := DeadSaves(n, i, data, cap, k - 1);
      var save := At(1, Save(n, i, data, cap, Some(0)));
      events := before + [save];
      RunOneMore(before, save);
      ListOfStep(Run(before), save, false, n, i);
      NoCleanupsOneMore(before, save);
      RepeatedOneMore(Item(1, data, Some(1)), k - 1);
    }
  }

  lemma {:induction false} AllDead(item: Item, k: nat, t: int)
    requires !Live(item, t)
    ensures LiveAt(Repeated(item, k), t) == []
  {
    if k > 0 {
      AllDead(item, k - 1, t);
      assert Repeated(item, k)[1..] == Repeated(item, k - 1);
    }
  }

  /** As many dead items behind a new one keep it from being cut off. */
  lemma KeptByDeadItems(s: Store, cap: int, n: string, i: string, data: Value)
    requires cap < 0 && Listed(s, n, i) == Repeated(Item(1, data, Some(1)), -cap)
    ensures Read(Step(s, At(2, Save(n, i, data, cap, None))), n, i, 1, 2) == [Item(2, data, None)]
  {
    var save, item := At(2, Save(n, i, data, cap, None)), Item(2, data, None);
    ListOfStep(s, save, false, n, i);
    assert Stored(Step(s, save), n, i) == Saved(Listed(s, n, i), item, cap) == [item];
    assert [item][1..] == [] && LiveAt([item], 2) == [item];
  }

  lemma LostAfterCleanup(s: Store, cap: int, n: string, i: string, data: Value)
    requires cap < 0 && Listed(s, n, i) == Repeated(Item(1, data, Some(1)), -cap)
    ensures Read(Step(Step(s, At(2, Cleanup)), At(2, Save(n, i, data, cap, None))), n, i, 1, 2) == []
  {
    var cleaned, save, item := Step(s, At(2, Cleanup)), At(2, Save(n, i, data, cap, None)), Item(2, data, None);
    AllDead(Item(1, data, Some(1)), -cap, 2);
    ListOfStep(s, At(2, Cleanup), false, n, i);
    ListOfStep(cleaned, save, false, n, i);
    assert Stored(Step(cleaned, save), n, i) == Saved([], item, cap) == [];
  }

  /**
   A negative bound counts from the end: with as many dead items behind it the new item stays, and
   without them it is cut off.  So here it can be read only as long as nobody cleans up.
   */
  lemma NegativeCapLosesLiveData(cap: int, n: string, i: string, data: Value) returns (events: seq<Timed>)
    requires cap < 0
    ensures Monotone(events) && OtherCapsNatural(events, cap) && forall e :: e in events ==> e.time <= 2
    ensures Read(Run(NoCleanups(events)), n, i, 1, 2) == [Item(2, data, None)]
    ensures Read(Run(events), n, i, 1, 2) == []
  {
    var filling := DeadSaves(n, i, data, -cap, -cap);
    var cleanup, save := At(2, Cleanup), At(2, Save(n, i, data, cap, None));
    events := filling + [cleanup] + [save];
    FilledThenSaved(filling, cap, save);
    LeaveOneOut(filling, cleanup, save);
    RunOneMore(filling, save);
    KeptByDeadItems(Run(filling), cap, n, i, data);
    RunOneMore(filling, cleanup);
    RunOneMore(filling + [cleanup], save);
    LostAfterCleanup(Run(filling), cap, n, i, data);
  }

  lemma FilledThenSaved(filling: seq<Timed>, cap: int, save: Timed)
    requires cap < 0 && Filling(filling, -cap) && save.time == 2 && save.op.Save? && save.op.cap == cap
    ensures var events := filling + [At(2, Cleanup)] + [save];
            Monotone(events) && OtherCapsNatural(events, cap) && forall e :: e in events ==> e.time <= 2
  {
  }

  lemma LeaveOneOut(events: seq<Timed>, cleanup: Timed, last: Timed)
    requires NoCleanups(events) == events && cleanup.op.Cleanup? && !last.op.Cleanup?
    ensures NoCleanups(events + [cleanup] + [last]) == events + [last]
  {
    NoCleanupsOneMore(events, cleanup);
    NoCleanupsOneMore(events + [cleanup], last);
    assert events + [] == events;
  }

  /** Among all runs with one cap that may be negative, cleaning up is harmless exactly when it is not. */
  lemma CapSafeIffNatural(cap: int)
    ensures CapSafe(cap) <==> cap >= 0
  {
    if cap >= 0 {
      forall events: seq<Timed>, n, i, t, limit | Monotone(events) && OtherCapsNatural(events, cap) &&
                                      (forall e :: e in events ==> e.time <= t)
        ensures Read(Run(NoCleanups(events)), n, i, limit, t) <= Read(Run(events), n, i, limit, t)
      {
        CleanupNeverLosesLiveData(events, n, i, t, limit);
      }
    } else {
      var events := NegativeCapLosesLiveData(cap, "n", "1d", Value(""));
      assert !(Read(Run(NoCleanups(events)), "n", "1d", 1, 2) <= Read(Run(events), "n", "1d", 1, 2));
    }
  }

  // ------------------------------------------------------ histories follow the save log

  /** Everything ever saved under (n, i), newest first. */
  function Log(events: seq<Timed>, n: string, i: string): seq<Item> {
    if events == [] then []
    else
      var last := events[|events| - 1];
      (if last.op.Save? && last.op.node == n && last.op.interval == i then [NewItem(last)] else [])
      + Log(events[..|events| - 1], n, i)
  }

  ghost predicate Subsequence(a: seq<Item>, l: seq<Item>) {
    a == []
    || (l != [] && a[0] == l[0] && Subsequence(a[1..], l[1..]))
    || (l != [] && Subsequence(a, l[1..]))
  }

  lemma {:induction false} SubsequenceTake(a: seq<Item>, l: seq<Item>, c: nat)
    requires Subsequence(a, l) && c <= |a|
    ensures Subsequence(a[..c], l)
    decreases |l|
  {
    if c == 0 {
    } else if a[0] == l[0] && Subsequence(a[1..], l[1..]) {
      SubsequenceTake(a[1..], l[1..], c - 1);
      assert a[..c][1..] == a[1..][..c - 1];
    } else {
      SubsequenceTake(a, l[1..], c);
    }
  }

  lemma {:induction false} SubsequenceLive(a: seq<Item>, l: seq<Item>, t: int)
    requires Subsequence(a, l)
    ensures Subsequence(LiveAt(a, t), l)
    decreases |l|
  {
    if a == [] {
    } else if a[0] == l[0] && Subsequence(a[1..], l[1..]) {
      SubsequenceLive(a[1..], l[1..], t);
      if Live(a[0], t) {
        assert LiveAt(a, t)[1..] == LiveAt(a[1..], t);
      } else {
        assert LiveAt(a, t) == LiveAt(a[1..], t);
      }
    } else {
      SubsequenceLive(a, l[1..], t);
    }
  }

  lemma SubsequenceCut(a: seq<Item>, l: seq<Item>, c: int)
    requires Subsequence(a, l)
    ensures Subsequence(Cut(a, c), l)
  {
    if c < |a| && c >= 0 {
      SubsequenceTake(a, l, c);
    } else if c < 0 && |a| + c >= 0 {
      SubsequenceTake(a, l, |a| + c);
    }
  }

  /** After any run, cleaned up or not, a history is a newest-first subsequence of what was saved. */
  lemma {:induction false} HistoryFollowsLog(events: seq<Timed>, n: string, i: string)
    ensures Subsequence(Listed(Run(events), n, i), Log(events, n, i))
    decreases |events|
  {
    if events != [] {
      var rest, last := events[..|events| - 1], events[|events| - 1];
      HistoryFollowsLog(rest, n, i);
      ListOfStep(Run(rest), last, false, n, i);
      var l, log := Listed(Run(rest), n, i), Log(rest, n, i);
      assert [] + log == log;
      match last.op
      case Save(m, j, data, cap, ttl) =>
        if m == n && j == i {
          var item := NewItem(last);
          assert ([item] + l)[1..] == l && ([item] + log)[1..] == log;
          assert Subsequence([item] + l, [item] + log);
          SubsequenceCut([item] + l, [item] + log, cap);
        }
      case Cleanup => SubsequenceLive(l, log, last.time);
      case Clear(who, which) =>
      case TrimTo(m, j, cap) => SubsequenceCut(l, log, cap);
    }
  }

  /** Leaving the cleanups out does not change the log. */
  lemma {:induction false} LogIgnoresCleanups(events: seq<Timed>, n: string, i: string)
    ensures Log(NoCleanups(events), n, i) == Log(events, n, i)
  {
    if events != [] {
      var rest, last := events[..|events| - 1], events[|events| - 1];
      LogIgnoresCleanups(rest, n, i);
      if !last.op.Cleanup? {
        assert (NoCleanups(rest) + [last])[..|NoCleanups(rest)|] == NoCleanups(rest);
      } else {
        assert NoCleanups(rest) + [] == NoCleanups(rest);
      }
    }
  }
}
