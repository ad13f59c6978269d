/**
 What each operation on the two stores does, key by key and item by item, in terms of the
 dictionaries and expiry times themselves (src/qmtl/sdk/execution/local.py:157-347).
 */
module HistoryLaws {
  import opened Outcomes
  import opened HistoryStore
  import opened HistoryRuns

  /** `k` consists of the unexpired items of `l`, in its order and as often as they stand there. */
  ghost predicate Unexpired(k: seq<Item>, l: seq<Item>, now: int) {
    && Subsequence(k, l)
    && forall x :: multiset(k)[x] ==
                   if x.expiresAt.None? || x.expiresAt == Some(0) || x.expiresAt.value > now then multiset(l)[x] else 0
  }

  lemma {:induction false} SubsequenceItself(l: seq<Item>)
    ensures Subsequence(l, l)
  {
    if l != [] {
      SubsequenceItself(l[1..]);
    }
  }

  lemma {:induction false} LiveUnexpired(l: seq<Item>, now: int)
    ensures Unexpired(LiveAt(l, now), l, now)
  {
    SubsequenceItself(l);
    SubsequenceLive(l, l, now);
    forall x
      ensures multiset(LiveAt(l, now))[x] ==
              if x.expiresAt.None? || x.expiresAt == Some(0) || x.expiresAt.value > now then multiset(l)[x] else 0
    {
      LiveAtExact(l, now, x);
    }
  }

  /** A reader gets the newest unexpired items of the nested list, or of the cached one if there is none. */
  lemma {:induction false} ReadLaw(s: Store, n: string, i: string, limit: nat, now: int) returns (all: seq<Item>)
    ensures var l := if n in s.history && i in s.history[n] then s.history[n][i]
                     else if n + ":" + i in s.cache then s.cache[n + ":" + i] else [];
            Unexpired(all, l, now)
    ensures Read(s, n, i, limit, now) == if |all| < limit then all else all[..limit]
  {
    var l := Stored(s, n, i);
    all := LiveAt(l, now);
    LiveUnexpired(l, now);
  }

  /** Without a live item a list disappears, and with its last list a node; the others keep their live items. */
  lemma {:induction false} CleanupLaw(s: Store, now: int)
    ensures var t := Step(s, At(now, Cleanup));
            && (forall key :: key in t.cache <==> key in s.cache && !Unexpired([], s.cache[key], now))
            && (forall key :: key in t.cache ==> Unexpired(t.cache[key], s.cache[key], now))
            && (forall n, i :: n in t.history && i in t.history[n] <==>
                  n in s.history && i in s.history[n] && !Unexpired([], s.history[n][i], now))
            && (forall n, i :: n in t.history && i in t.history[n] ==>
                  Unexpired(t.history[n][i], s.history[n][i], now))
            && (forall n :: n in t.history ==> t.history[n] != map[])
  {
    CleanListsLaw(s.cache, now);
    var t := Step(s, At(now, Cleanup));
    forall n | n in s.history
      ensures CleanLists(s.history[n], now) == map[] <==> n !in t.history
      ensures forall i :: i in CleanLists(s.history[n], now) <==>
                i in s.history[n] && !Unexpired([], s.history[n][i], now)
      ensures forall i :: i in CleanLists(s.history[n], now) ==>
                Unexpired(CleanLists(s.history[n], now)[i], s.history[n][i], now)
    {
      CleanListsLaw(s.history[n], now);
    }
  }

  lemma {:induction false} CleanListsLaw(m: map<string, seq<Item>>, now: int)
    ensures forall key :: key in CleanLists(m, now) <==> key in m && !Unexpired([], m[key], now)
    ensures forall key :: key in CleanLists(m, now) ==> Unexpired(CleanLists(m, now)[key], m[key], now)
  {
    forall key | key in m
      ensures LiveAt(m[key], now) == [] <==> Unexpired([], m[key], now)
      ensures Unexpired(LiveAt(m[key], now), m[key], now)
    {
      LiveUnexpired(m[key], now);
      NothingUnexpired(m[key], now);
    }
  }

  lemma {:induction false} NothingUnexpired(l: seq<Item>, now: int)
    ensures LiveAt(l, now) == [] <==> Unexpired([], l, now)
  {
    LiveUnexpired(l, now);
    var live := LiveAt(l, now);
    assert live != [] ==> multiset(live)[live[0]] > 0;
  }

  /** Do these names fall under the arguments of a clear? */
  ghost predicate Meant(n: string, i: string, who: Option<string>, which: Option<string>) {
    (who.Some? ==> n == who.value) && (which.Some? ==> i == which.value)
  }

  /**
   Clearing everything empties both stores.  Otherwise the cache loses exactly the keys that can be read as
   a pair of names that is meant, and the nested store exactly the lists that are, a node only as a whole.
   */
  lemma {:induction false} ClearLaw(s: Store, at: int, who: Option<string>, which: Option<string>)
    ensures var t := Step(s, At(at, Clear(who, which)));
            && (forall key :: key in t.cache <==>
                  && key in s.cache && (who.Some? || which.Some?)
                  && forall n, i :: key == n + ":" + i ==> !Meant(n, i, who, which))
            && (forall key :: key in t.cache ==> t.cache[key] == s.cache[key])
            && (forall n :: n in t.history <==> n in s.history && (which.Some? || (who.Some? && n != who.value)))
            && (forall n, i :: n in t.history ==>
                  (i in t.history[n] <==> i in s.history[n] && !Meant(n, i, who, which)))
            && (forall n, i :: n in t.history && i in t.history[n] ==> t.history[n][i] == s.history[n][i])
  {
    forall key
      ensures ClearsKey(key, who, which) <==>
              (who.None? && which.None?) || exists n, i :: key == n + ":" + i && Meant(n, i, who, which)
    {
      ClearsKeyExact(key, who, which);
    }
  }

  lemma ClearsKeyExact(key: string, who: Option<string>, which: Option<string>)
    ensures ClearsKey(key, who, which) <==>
            (who.None? && which.None?) || exists n, i :: key == n + ":" + i && Meant(n, i, who, which)
  {
    if who.Some? || which.Some? {
      if ClearsKey(key, who, which) {
        var n, i := NamesIn(key, who, which);
        assert key == n + ":" + i && Meant(n, i, who, which);
      }
      if n, i :| key == n + ":" + i && Meant(n, i, who, which) {
        assert key[..|n| + 1] == n + ":" && key[|n|..] == ":" + i;
      }
    }
  }

  lemma NamesIn(key: string, who: Option<string>, which: Option<string>) returns (n: string, i: string)
    requires ClearsKey(key, who, which) && (who.Some? || which.Some?)
    ensures key == n + ":" + i && Meant(n, i, who, which)
  {
    match (who, which) {
      case (Some(m), Some(j)) => n, i := m, j;
      case (Some(m), None) => n, i := m, key[|m| + 1..];
      case (None, Some(j)) => n, i := key[..|key| - |j| - 1], j;
    }
  }

  /** A save and a trim touch one key of the cache and one nested list, and a trim creates neither. */
  lemma {:induction false} OthersUntouched(s: Store, e: Timed, n: string, i: string)
    requires (e.op.Save? || e.op.TrimTo?) && e.op.node == n && e.op.interval == i
    ensures var t := Step(s, e);
            && (forall key :: key != n + ":" + i ==> (key in t.cache <==> key in s.cache))
            && (forall key :: key != n + ":" + i && key in t.cache ==> t.cache[key] == s.cache[key])
            && (forall m, j :: (m, j) != (n, i) ==>
                  (m in t.history && j in t.history[m] <==> m in s.history && j in s.history[m]))
            && (forall m, j :: (m, j) != (n, i) && m in t.history && j in t.history[m] ==>
                  t.history[m][j] == s.history[m][j])
            && (e.op.TrimTo? ==>
                  t.cache.Keys == s.cache.Keys && (n in t.history && i in t.history[n] <==>
                                                   n in s.history && i in s.history[n]))
  {
  }

  /** A trim keeps the newest items up to its cap. */
  lemma {:induction false} TrimLaw(s: Store, at: int, n: string, i: string, cap: nat)
    ensures var t := Step(s, At(at, TrimTo(n, i, cap)));
            && (n in s.history && i in s.history[n] ==>
                  n in t.history && i in t.history[n] &&
                  t.history[n][i] == s.history[n][i][..if |s.history[n][i]| < cap then |s.history[n][i]| else cap])
            && (n + ":" + i in s.cache ==>
                  var l := s.cache[n + ":" + i];
                  n + ":" + i in t.cache && t.cache[n + ":" + i] == l[..if |l| < cap then |l| else cap])
  {
  }
}
