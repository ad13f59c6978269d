/**
 The interval history of the local engine (src/qmtl/sdk/execution/local.py:157-347): the same
 items kept in two stores, a flat cache keyed by "node:interval" and a nested dictionary.
 */
module HistoryStore {
  import opened Outcomes
  import opened Pipelines

  /** One saved value; times are in seconds. */
  datatype Item = Item(timestamp: int, value: Value, expiresAt: Option<int>)

  type Cache = map<string, seq<Item>>
  type Nested = map<string, map<string, seq<Item>>>

  /** An expiry of 0 is falsy and never applies. */
  predicate Live(item: Item, t: int) {
    item.expiresAt.None? || item.expiresAt.value == 0 || item.expiresAt.value > t
  }

  function Expiry(now: int, ttl: Option<int>): Option<int> {
    if ttl.None? || ttl.value < 0 then None else Some(now + ttl.value)
  }

  /** The slice `items[:n]`; a negative bound counts from the end. */
  function Cut<T>(items: seq<T>, n: int): seq<T> {
    if n >= |items| then items
    else if n >= 0 then items[..n]
    else if |items| + n >= 0 then items[..|items| + n]
    else []
  }

  function Saved(items: seq<Item>, item: Item, cap: int): seq<Item> {
    var longer := [item] + items;
    if |longer| > cap then Cut(longer, cap) else longer
  }

  function LiveAt(items: seq<Item>, t: int): seq<Item> {
    if items == [] then []
    else (if Live(items[0], t) then [items[0]] else []) + LiveAt(items[1..], t)
  }

  function Key(node: string, interval: string): string {
    node + ":" + interval
  }

  function CacheGet(c: Cache, node: string, interval: string): Option<seq<Item>> {
    if Key(node, interval) in c then Some(c[Key(node, interval)]) else None
  }

  function NestedGet(h: Nested, node: string, interval: string): Option<seq<Item>> {
    if node in h && interval in h[node] then Some(h[node][interval]) else None
  }

  function Items(o: Option<seq<Item>>): seq<Item> {
    if o.Some? then o.value else []
  }

  /** A slice from the front: up to the bound, or, for a negative bound, all but that many from the end. */
  lemma CutIsPrefix<T>(items: seq<T>, n: int)
    ensures Cut(items, n) <= items
    ensures n >= 0 ==> |Cut(items, n)| == if |items| < n then |items| else n
    ensures n < 0 ==> |Cut(items, n)| == if |items| < -n then 0 else |items| + n
  {
  }

  /** `k` is the list `l` after a save under a natural cap: the new item in front of as many old ones as fit. */
  ghost predicate NewestFirst(k: seq<Item>, l: seq<Item>, data: Value, now: int, ttl: Option<int>, cap: nat) {
    && |k| == (if |l| < cap then |l| + 1 else cap)
    && (cap > 0 ==>
          && k[0].timestamp == now && k[0].value == data
          && k[0].expiresAt == (if ttl.Some? && ttl.value >= 0 then Some(now + ttl.value) else None)
          && k[1..] <= l)
  }

  lemma SavedNewestFirst(l: seq<Item>, data: Value, now: int, ttl: Option<int>, cap: nat)
    ensures NewestFirst(Saved(l, Item(now, data, Expiry(now, ttl)), cap), l, data, now, ttl, cap)
  {
  }

  /** Filtering keeps exactly the items that never expire, or not yet, and each as often as it was there. */
  lemma {:induction false} LiveAtExact(items: seq<Item>, t: int, x: Item)
    ensures multiset(LiveAt(items, t))[x] ==
            if x.expiresAt.None? || x.expiresAt == Some(0) || x.expiresAt.value > t then multiset(items)[x] else 0
  {
    if items != [] {
      LiveAtExact(items[1..], t, x);
      assert items == [items[0]] + items[1..];
      assert multiset(items)[x] == multiset([items[0]])[x] + multiset(items[1..])[x];
      var kept := if Live(items[0], t) then [items[0]] else [];
      assert multiset(kept + LiveAt(items[1..], t))[x] == multiset(kept)[x] + multiset(LiveAt(items[1..], t))[x];
    }
  }

  // ------------------------------------------------------- each operation, store by store

  /** A new front item in the list under `key`, which is created if needed and cut to the cap. */
  function Inserted(m: map<string, seq<Item>>, key: string, item: Item, cap: int): map<string, seq<Item>> {
    m[key := Saved(if key in m then m[key] else [], item, cap)]
  }

  function CacheSave(c: Cache, node: string, interval: string, item: Item, cap: int): Cache {
    Inserted(c, Key(node, interval), item, cap)
  }

  function NestedSave(h: Nested, node: string, interval: string, item: Item, cap: int): Nested {
    h[node := Inserted(if node in h then h[node] else map[], interval, item, cap)]
  }

  function CleanLists(m: map<string, seq<Item>>, t: int): map<string, seq<Item>> {
    map k | k in m && LiveAt(m[k], t) != [] :: LiveAt(m[k], t)
  }

  function CleanNested(h: Nested, t: int): Nested {
    map n | n in h && CleanLists(h[n], t) != map[] :: CleanLists(h[n], t)
  }

  predicate StartsWith(s: string, prefix: string) {
    prefix <= s
  }

  predicate EndsWith(s: string, suffix: string) {
    |suffix| <= |s| && s[|s| - |suffix|..] == suffix
  }

  /** Does clearing with these arguments delete the cache entry `key`? */
  predicate ClearsKey(key: string, node: Option<string>, interval: Option<string>) {
    match (node, interval)
    case (None, None) => true
    case (None, Some(i)) => EndsWith(key, ":" + i)
    case (Some(n), None) => StartsWith(key, n + ":")
    case (Some(n), Some(i)) => key == Key(n, i)
  }

  function CacheClear(c: Cache, node: Option<string>, interval: Option<string>): Cache {
    map k | k in c && !ClearsKey(k, node, interval) :: c[k]
  }

  function NestedClear(h: Nested, node: Option<string>, interval: Option<string>): Nested {
    match (node, interval)
    case (None, None) => map[]
    case (None, Some(i)) => map n | n in h :: h[n] - {i}
    case (Some(n), None) => h - {n}
    case (Some(n), Some(i)) => if n in h then h[n := h[n] - {i}] else h
  }

  function CacheTrim(c: Cache, node: string, interval: string, cap: int): Cache {
    var k := Key(node, interval);
    if k in c then c[k := Cut(c[k], cap)] else c
  }

  function NestedTrim(h: Nested, node: string, interval: string, cap: int): Nested {
    if node in h && interval in h[node] then h[node := h[node][interval := Cut(h[node][interval], cap)]] else h
  }

  // ------------------------------------------------------------ operations as events

  datatype Op =
    | Save(node: string, interval: string, data: Value, cap: int, ttl: Option<int>)
    | Cleanup
    | Clear(who: Option<string>, which: Option<string>)
    | TrimTo(node: string, interval: string, cap: int)

  datatype Timed = At(time: int, op: Op)

  datatype Store = Store(cache: Cache, history: Nested)

  function Step(s: Store, e: Timed): Store {
    match e.op
    case Save(n, i, data, cap, ttl) =>
      var item := Item(e.time, data, Expiry(e.time, ttl));
      Store(CacheSave(s.cache, n, i, item, cap), NestedSave(s.history, n, i, item, cap))
    case Cleanup => Store(CleanLists(s.cache, e.time), CleanNested(s.history, e.time))
    case Clear(who, which) => Store(CacheClear(s.cache, who, which), NestedClear(s.history, who, which))
    case TrimTo(n, i, cap) => Store(CacheTrim(s.cache, n, i, cap), NestedTrim(s.history, n, i, cap))
  }

  /** What is stored under (node, interval): the nested store first, the cache as a fallback. */
  function Stored(s: Store, node: string, interval: string): seq<Item> {
    if NestedGet(s.history, node, interval).Some? then Items(NestedGet(s.history, node, interval))
    else Items(CacheGet(s.cache, node, interval))
  }

  /** What a reader gets at time `now`. */
  function Read(s: Store, node: string, interval: string, limit: int, now: int): seq<Item> {
    Cut(LiveAt(Stored(s, node, interval), now), limit)
  }

  // ------------------------------------------------------------------- the two stores

  class Stores {
    var cache: Cache
    var history: Nested

    function Contents(): Store
      reads this
    {
      Store(cache, history)
    }

    constructor ()
      ensures Contents() == Store(map[], map[])
    {
      cache, history := map[], map[];
    }

    method SaveIntervalData(node: string, interval: string, data: Value, maxItems: int, ttl: Option<int>, now: int)
      modifies this
      ensures Contents() == Step(old(Contents()), At(now, Save(node, interval, data, maxItems, ttl)))
      ensures node in history && interval in history[node] && node + ":" + interval in cache
      ensures maxItems >= 0 ==>
                var l := if node in old(history) && interval in old(history)[node] then old(history)[node][interval]
                         else [];
                NewestFirst(history[node][interval], l, data, now, ttl, maxItems)
      ensures maxItems >= 0 ==>
                var key := node + ":" + interval;
                NewestFirst(cache[key], if key in old(cache) then old(cache)[key] else [], data, now, ttl, maxItems)
    {
      var expiresAt := if ttl.Some? && ttl.value > 0 then Some(now + ttl.value)
                       else if ttl == Some(0) then Some(now) else None;
      var newItem := Item(now, data, expiresAt);

      cache := InsertCapped(cache, Key(node, interval), newItem, maxItems);
      SaveInHistory(node, interval, newItem, maxItems);
      if maxItems >= 0 {
        SavedNewestFirst(Items(NestedGet(old(history), node, interval)), data, now, ttl, maxItems);
        SavedNewestFirst(Items(CacheGet(old(cache), node, interval)), data, now, ttl, maxItems);
      }
    }

    method SaveInHistory(node: string, interval: string, newItem: Item, maxItems: int)
      modifies this`history
      ensures history == NestedSave(old(history), node, interval, newItem, maxItems)
    {
      if node !in history {
        history := history[node := map[]];
      }
      var intervals := InsertCapped(history[node], interval, newItem, maxItems);
      history := history[node := intervals];
    }

    /** Both stores insert in the same way. */
    method InsertCapped(m: map<string, seq<Item>>, key: string, newItem: Item, maxItems: int)
      returns (r: map<string, seq<Item>>)
      ensures r == Inserted(m, key, newItem, maxItems)
    {
      r := if key in m then m else m[key := []];
      r := r[key := [newItem] + r[key]];
      if |r[key]| > maxItems {
        r := r[key := Cut(r[key], maxItems)];
      }
    }

    method GetIntervalData(node: string, interval: string, limit: int, now: int) returns (r: seq<Item>)
      ensures r == Read(Contents(), node, interval, limit, now)
    {
      var items := [];
      if node in history && interval in history[node] {
        items := history[node][interval];
      } else if Key(node, interval) in cache {
        items := cache[Key(node, interval)];
      }
      var valid := FilterLive(items, now);
      return Cut(valid, limit);
    }

    method FilterLive(items: seq<Item>, t: int) returns (valid: seq<Item>)
      ensures valid == LiveAt(items, t)
    {
      valid := [];
      for i := 0 to |items|
        invariant valid + LiveAt(items[i..], t) == LiveAt(items, t)
      {
        assert items[i..][1..] == items[i + 1..];
        if Live(items[i], t) {
          valid := valid + [items[i]];
        }
      }
    }

    /** Filter every list of a dictionary and delete the keys whose list becomes empty. */
    method CleanDictionary(m: map<string, seq<Item>>, t: int) returns (r: map<string, seq<Item>>)
      ensures r == CleanLists(m, t)
    {
      r := m;
      var keys := m.Keys;
      while keys != {}
        invariant keys <= m.Keys && keys <= r.Keys
        invariant forall k :: k in keys ==> r[k] == m[k]
        invariant r - keys == CleanLists(m - keys, t)
        decreases keys
      {
        var k :| k in keys;
        ghost var r0, keys0 := r, keys;
        var valid := FilterLive(m[k], t);
        if valid == [] {
          r := r - {k};
        } else {
          r := r[k := valid];
        }
        keys := keys - {k};
        CleanOneMore(m, t, r0, keys0, k, r);
      }
      assert m - {} == m && r - {} == r;
    }

    /** The nested loops: nodes left without any interval disappear as well. */
    method CleanHistory(h: Nested, t: int) returns (r: Nested)
      ensures r == CleanNested(h, t)
    {
      r := h;
      var nodes := h.Keys;
      while nodes != {}
        invariant nodes <= h.Keys && nodes <= r.Keys
        invariant forall n :: n in nodes ==> r[n] == h[n]
        invariant forall n :: n !in nodes ==>
                    (n in r <==> n in h && CleanLists(h[n], t) != map[])
                    && (n in r ==> r[n] == CleanLists(h[n], t))
        decreases nodes
      {
        var n :| n in nodes;
        var intervals := CleanDictionary(h[n], t);
        if intervals == map[] {
          r := r - {n};
        } else {
          r := r[n := intervals];
        }
        nodes := nodes - {n};
      }
    }

    method CleanupExpiredData(now: int)
      modifies this
      ensures Contents() == Step(old(Contents()), At(now, Cleanup))
    {
      cache := CleanDictionary(cache, now);
      history := CleanHistory(history, now);
    }

    method ClearCache(node: Option<string>, interval: Option<string>)
      modifies this
      ensures forall t :: Contents() == Step(old(Contents()), At(t, Clear(node, interval)))
    {
      match (node, interval) {
        case (None, None) =>
          cache, history := map[], map[];
        case (None, Some(i)) =>
          DeleteKeys(node, interval);
          var nodes := history.Keys;
          ghost var h := history;
          while nodes != {}
            invariant cache == CacheClear(old(cache), node, interval)
            invariant nodes <= h.Keys && history.Keys == h.Keys
            invariant forall n :: n in h ==> history[n] == if n in nodes then h[n] else h[n] - {i}
            decreases nodes
          {
            var n :| n in nodes;
            if i in history[n] {
              history := history[n := history[n] - {i}];
            } else {
              assert h[n] - {i} == h[n];
            }
            nodes := nodes - {n};
          }
        case (Some(n), None) =>
          DeleteKeys(node, interval);
          history := history - {n};
        case (Some(n), Some(i)) =>
          cache := cache - {Key(n, i)};
          if n in history {
            if i in history[n] {
              history := history[n := history[n] - {i}];
            } else {
              assert history[n] - {i} == history[n];
              assert history[n := history[n]] == history;
            }
          }
      }
    }

    /** The loops that delete every cache key with the given end or beginning. */
    method DeleteKeys(node: Option<string>, interval: Option<string>)
      requires node.None? != interval.None?
      modifies this`cache
      ensures cache == CacheClear(old(cache), node, interval)
    {
      var keys := cache.Keys;
      ghost var c := cache;
      while keys != {}
        invariant keys <= c.Keys
        invariant forall k :: k in cache <==> k in c && (k in keys || !ClearsKey(k, node, interval))
        invariant forall k :: k in cache ==> cache[k] == c[k]
        decreases keys
      {
        var k :| k in keys;
        if ClearsKey(k, node, interval) {
          cache := cache - {k};
        }
        keys := keys - {k};
      }
    }

    /** The end-of-run cap on one interval, applied to both stores. */
    method Trim(node: string, interval: string, cap: int)
      modifies this
      ensures forall t :: Contents() == Step(old(Contents()), At(t, TrimTo(node, interval, cap)))
    {
      if node in history && interval in history[node] {
        history := history[node := history[node][interval := Cut(history[node][interval], cap)]];
      }
      var key := Key(node, interval);
      if key in cache {
        cache := cache[key := Cut(cache[key], cap)];
      }
    }
  }

  lemma CleanOneMore(m: map<string, seq<Item>>, t: int, r0: map<string, seq<Item>>, keys0: set<string>,
                     k: string, r: map<string, seq<Item>>)
    requires keys0 <= m.Keys && k in keys0
    requires r0 - keys0 == CleanLists(m - keys0, t)
    requires r == if LiveAt(m[k], t) == [] then r0 - {k} else r0[k := LiveAt(m[k], t)]
    ensures r - (keys0 - {k}) == CleanLists(m - (keys0 - {k}), t)
  {
    var m' := m - (keys0 - {k});
    var r' := r - (keys0 - {k});
    forall x | x != k
      ensures x in r' <==> x in r0 - keys0
      ensures x in CleanLists(m', t) <==> x in CleanLists(m - keys0, t)
    {
    }
  }
}
