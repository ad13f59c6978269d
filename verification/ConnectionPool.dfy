/**
 The connection pool as interleaved steps of concurrent sessions
 (src/qmtl/common/db/connection_pool.py:57-107).  A session is one pairing of `get_client` with
 `release_client`; the semaphore operations and the two locked regions are the atomic steps.
 */
module ConnectionPool {
  import opened Outcomes
  import opened Sequences

  type Client = nat
  type Session = nat

  datatype Phase =
    | Acquired                  // a permit, no client yet
    | Holding(client: Client)
    | Leaving                   // client returned or never created; the permit is still out

  /** `sessions` lists the active ones; `created` counts the clients made so far and names the next one. */
  datatype Pool = Pool(maxSize: nat, permits: nat, idle: seq<Client>, sessions: map<Session, Phase>,
                       created: nat, closed: set<Client>)

  datatype Action =
    | Acquire(s: Session)
    | TakeOrCreate(s: Session)
    | CreationFails(s: Session)
    | GiveBack(s: Session)
    | Release(s: Session)
    | CloseAll

  predicate Enabled(p: Pool, a: Action) {
    match a
    case Acquire(s) => p.permits > 0 && s !in p.sessions
    case TakeOrCreate(s) => s in p.sessions && p.sessions[s].Acquired?
    case CreationFails(s) => s in p.sessions && p.sessions[s].Acquired? && p.idle == []
    case GiveBack(s) => s in p.sessions && p.sessions[s].Holding?
    case Release(s) => s in p.sessions && p.sessions[s].Leaving?
    case CloseAll => true
  }

  function Apply(p: Pool, a: Action): Pool
    requires Enabled(p, a)
  {
    match a
    case Acquire(s) => p.(permits := p.permits - 1, sessions := p.sessions[s := Acquired])
    case TakeOrCreate(s) =>
      if p.idle == [] then p.(sessions := p.sessions[s := Holding(p.created)], created := p.created + 1)
      else
        var n := |p.idle| - 1;
        p.(sessions := p.sessions[s := Holding(p.idle[n])], idle := p.idle[..n])
    case CreationFails(s) => p.(sessions := p.sessions[s := Leaving])
    case GiveBack(s) => p.(idle := p.idle + [p.sessions[s].client], sessions := p.sessions[s := Leaving])
    case Release(s) => p.(permits := p.permits + 1, sessions := p.sessions - {s})
    case CloseAll => p.(closed := p.closed + Elements(p.idle), idle := [])
  }

  ghost predicate Executable(p: Pool, actions: seq<Action>)
    decreases |actions|
  {
    actions == [] || (Enabled(p, actions[0]) && Executable(Apply(p, actions[0]), actions[1..]))
  }

  ghost function After(p: Pool, actions: seq<Action>): Pool
    requires Executable(p, actions)
    decreases |actions|
  {
    if actions == [] then p else After(Apply(p, actions[0]), actions[1..])
  }

  function Fresh(maxSize: nat): Pool {
    Pool(maxSize, maxSize, [], map[], 0, {})
  }

  // ----------------------------------------------------------------- what steps keep

  /** The sessions that hold a client. */
  ghost function Holders(p: Pool): set<Session> {
    set s | s in p.sessions && p.sessions[s].Holding?
  }

  ghost function Held(p: Pool): set<Client> {
    set s | s in Holders(p) :: p.sessions[s].client
  }

  /** The open clients: pooled or held. */
  ghost function LiveClients(p: Pool): set<Client> {
    Elements(p.idle) + Held(p)
  }

  /** Every permit is either free or with an active session. */
  ghost predicate PermitsConserved(p: Pool) {
    p.permits + |p.sessions.Keys| == p.maxSize
  }

  ghost predicate Exclusive(p: Pool) {
    && Distinct(p.idle)
    && (forall s, t :: s in Holders(p) && t in Holders(p) && s != t ==> p.sessions[s].client != p.sessions[t].client)
    && (forall s :: s in Holders(p) ==> p.sessions[s].client !in p.idle)
  }

  ghost predicate Safe(p: Pool) {
    && PermitsConserved(p)
    && Exclusive(p)
    && |p.idle| + |Holders(p)| <= p.maxSize
    && (forall c :: c in LiveClients(p) || c in p.closed ==> c < p.created)
    && LiveClients(p) !! p.closed
  }

  /** Every client ever created is pooled, held or closed. */
  ghost predicate NothingLeaks(p: Pool) {
    forall c :: 0 <= c < p.created ==>
      c in p.idle || c in p.closed || exists s :: s in p.sessions && p.sessions[s] == Holding(c)
  }

  /** The holder of a client, seen through the held set. */
  lemma HolderOf(p: Pool, c: Client)
    ensures c in Held(p) <==> exists s :: s in p.sessions && p.sessions[s] == Holding(c)
  {
    if s :| s in p.sessions && p.sessions[s] == Holding(c) {
      assert s in Holders(p);
    }
  }

  lemma AcquireKeeps(p: Pool, s: Session)
    requires Safe(p) && Enabled(p, Acquire(s))
    ensures Safe(Apply(p, Acquire(s)))
  {
    var q := Apply(p, Acquire(s));
    assert Holders(q) == Holders(p);
    assert q.sessions.Keys == p.sessions.Keys + {s};
    assert Held(q) == Held(p);
  }

  lemma TakeKeepsExclusive(p: Pool, s: Session)
    requires Exclusive(p) && Enabled(p, TakeOrCreate(s)) && p.idle != []
    ensures Exclusive(Apply(p, TakeOrCreate(s)))
    ensures LiveClients(Apply(p, TakeOrCreate(s))) <= LiveClients(p)
  {
    var q := Apply(p, TakeOrCreate(s));
    var c := p.idle[|p.idle| - 1];
    SplitLast(p.idle);
    assert Holders(q) == Holders(p) + {s};
    assert forall x :: x in q.idle ==> x in p.idle && x != c;
    assert c in p.idle;
    assert forall x :: x in Held(q) ==> x in Held(p) || x == c;
  }

  lemma TakeKeeps(p: Pool, s: Session)
    requires Safe(p) && Enabled(p, TakeOrCreate(s)) && p.idle != []
    ensures Safe(Apply(p, TakeOrCreate(s)))
  {
    var q := Apply(p, TakeOrCreate(s));
    TakeKeepsExclusive(p, s);
    assert Holders(q) == Holders(p) + {s};
    assert q.sessions.Keys == p.sessions.Keys;
  }

  lemma CreateKeeps(p: Pool, s: Session)
    requires Safe(p) && Enabled(p, TakeOrCreate(s)) && p.idle == []
    ensures Safe(Apply(p, TakeOrCreate(s)))
  {
    var q := Apply(p, TakeOrCreate(s));
    assert Holders(q) == Holders(p) + {s};
    assert q.sessions.Keys == p.sessions.Keys;
    SubsetCard(Holders(q), q.sessions.Keys);
    forall x | x in Held(q)
      ensures x in Held(p) || x == p.created
    {
    }
    forall t | t in Holders(p)
      ensures p.sessions[t].client < p.created
    {
      assert p.sessions[t].client in Held(p);
    }
  }

  lemma FailKeeps(p: Pool, s: Session)
    requires Safe(p) && Enabled(p, CreationFails(s))
    ensures Safe(Apply(p, CreationFails(s)))
  {
    var q := Apply(p, CreationFails(s));
    assert Holders(q) == Holders(p) && q.sessions.Keys == p.sessions.Keys;
    assert Held(q) == Held(p);
  }

  lemma GiveBackKeeps(p: Pool, s: Session)
    requires Safe(p) && Enabled(p, GiveBack(s))
    ensures Safe(Apply(p, GiveBack(s)))
  {
    var q := Apply(p, GiveBack(s));
    var c := p.sessions[s].client;
    assert s in Holders(p) && c in Held(p);
    assert Holders(q) == Holders(p) - {s} && q.sessions.Keys == p.sessions.Keys;
    forall x | x in LiveClients(q)
      ensures x in LiveClients(p)
    {
    }
  }

  lemma ReleaseKeeps(p: Pool, s: Session)
    requires Safe(p) && Enabled(p, Release(s))
    ensures Safe(Apply(p, Release(s)))
  {
    var q := Apply(p, Release(s));
    assert Holders(q) == Holders(p);
    assert q.sessions.Keys == p.sessions.Keys - {s};
    assert Held(q) == Held(p);
  }

  lemma CloseKeeps(p: Pool)
    requires Safe(p)
    ensures Safe(Apply(p, CloseAll))
  {
    var q := Apply(p, CloseAll);
    assert Holders(q) == Holders(p) && Held(q) == Held(p);
    forall c | c in Held(p)
      ensures c !in p.idle
    {
    }
  }

  lemma StepKeeps(p: Pool, a: Action)
    requires Safe(p) && Enabled(p, a)
    ensures Safe(Apply(p, a)) && Apply(p, a).maxSize == p.maxSize
  {
    match a
    case Acquire(s) => AcquireKeeps(p, s);
    case TakeOrCreate(s) => if p.idle == [] { CreateKeeps(p, s); } else { TakeKeeps(p, s); }
    case CreationFails(s) => FailKeeps(p, s);
    case GiveBack(s) => GiveBackKeeps(p, s);
    case Release(s) => ReleaseKeeps(p, s);
    case CloseAll => CloseKeeps(p);
  }

  /** No step loses sight of an open client. */
  lemma StepLeaksNothing(p: Pool, a: Action)
    requires NothingLeaks(p) && Enabled(p, a)
    ensures NothingLeaks(Apply(p, a))
  {
    var q := Apply(p, a);
    forall c | 0 <= c < q.created
      ensures c in q.idle || c in q.closed || exists s :: s in q.sessions && q.sessions[s] == Holding(c)
    {
      if c < p.created && c !in p.idle && c !in p.closed {
        var s :| s in p.sessions && p.sessions[s] == Holding(c);
        assert a != GiveBack(s) ==> s in q.sessions && q.sessions[s] == Holding(c);
        assert a == GiveBack(s) ==> q.idle == p.idle + [c];
      } else if a.TakeOrCreate? {
        assert a.s in q.sessions && q.sessions[a.s].Holding?;
        if p.idle != [] {
          SplitLast(p.idle);
        }
      }
    }
  }

  lemma {:induction false} RunLeaksNothing(p: Pool, actions: seq<Action>)
    requires NothingLeaks(p) && Executable(p, actions)
    ensures NothingLeaks(After(p, actions))
    decreases |actions|
  {
    if actions != [] {
      StepLeaksNothing(p, actions[0]);
      RunLeaksNothing(Apply(p, actions[0]), actions[1..]);
    }
  }

  lemma {:induction false} RunKeeps(p: Pool, actions: seq<Action>)
    requires Safe(p) && Executable(p, actions)
    ensures Safe(After(p, actions)) && After(p, actions).maxSize == p.maxSize
    decreases |actions|
  {
    if actions != [] {
      StepKeeps(p, actions[0]);
      RunKeeps(Apply(p, actions[0]), actions[1..]);
    }
  }

  lemma {:induction false} HeldCard(sessions: map<Session, Phase>, holders: set<Session>)
    requires forall s :: s in holders ==> s in sessions && sessions[s].Holding?
    ensures |set s | s in holders :: sessions[s].client| <= |holders|
  {
    if holders != {} {
      var s :| s in holders;
      HeldCard(sessions, holders - {s});
      var rest := set t | t in holders - {s} :: sessions[t].client;
      assert (set t | t in holders :: sessions[t].client) == rest + {sessions[s].client};
    }
  }

  lemma UnionCard<T>(a: set<T>, b: set<T>)
    ensures |a + b| <= |a| + |b|
  {
    assert a + b == a + (b - a);
    SubsetCard(b - a, b);
  }

  /**
   From a fresh pool, under any interleaving: free permits and active sessions add up to the size, no client
   is held twice or held while pooled, no handed-out client is closed, and at most `maxSize` clients are open.
   */
  lemma {:induction false} PoolIsSafe(maxSize: nat, actions: seq<Action>)
    requires Executable(Fresh(maxSize), actions)
    ensures var p := After(Fresh(maxSize), actions);
            && p.permits + |p.sessions.Keys| == maxSize
            && Exclusive(p)
            && LiveClients(p) !! p.closed
            && |LiveClients(p)| <= maxSize
            && forall c :: 0 <= c < p.created ==> c in LiveClients(p) || c in p.closed
  {
    var f := Fresh(maxSize);
    assert Holders(f) == {} && f.sessions.Keys == {};
    RunKeeps(f, actions);
    var p := After(f, actions);
    HeldCard(p.sessions, Holders(p));
    DistinctCard(p.idle);
    UnionCard(Elements(p.idle), Held(p));
    RunLeaksNothing(f, actions);
    forall c | 0 <= c < p.created
      ensures c in LiveClients(p) || c in p.closed
    {
      HolderOf(p, c);
    }
  }

  lemma {:induction false} RunConcat(p: Pool, a: seq<Action>, b: seq<Action>)
    requires Executable(p, a) && Executable(After(p, a), b)
    ensures Executable(p, a + b) && After(p, a + b) == After(After(p, a), b)
    decreases |a|
  {
    if a == [] {
      assert a + b == b;
    } else {
      RunConcat(Apply(p, a[0]), a[1..], b);
      assert (a + b)[0] == a[0] && (a + b)[1..] == a[1..] + b;
    }
  }

  lemma RunTwo(p: Pool, a: Action, b: Action)
    requires Enabled(p, a) && Enabled(Apply(p, a), b)
    ensures Executable(p, [a, b]) && After(p, [a, b]) == Apply(Apply(p, a), b)
  {
    assert [a, b][1..] == [b] && [b][1..] == [];
    assert After(Apply(p, a), [b]) == Apply(Apply(p, a), b);
  }

  /** An active session can go on by itself until it has left, and changes no other session. */
  lemma SessionLeaves(p: Pool, s: Session) returns (actions: seq<Action>)
    requires s in p.sessions
    ensures Executable(p, actions) && After(p, actions).sessions == p.sessions - {s}
  {
    match p.sessions[s] {
      case Leaving =>
        actions := [Release(s)];
        assert actions[1..] == [];
      case Holding(_) =>
        actions := [GiveBack(s), Release(s)];
        RunTwo(p, GiveBack(s), Release(s));
      case Acquired =>
        var q := Apply(p, TakeOrCreate(s));
        RunTwo(q, GiveBack(s), Release(s));
        actions := [TakeOrCreate(s)] + [GiveBack(s), Release(s)];
        assert actions[1..] == [GiveBack(s), Release(s)];
    }
  }

  /** From every safe pool some run ends all sessions, and then every permit is free again. */
  lemma {:induction false} EverythingReturns(p: Pool) returns (actions: seq<Action>)
    requires Safe(p)
    ensures Executable(p, actions)
    ensures var q := After(p, actions); Safe(q) && q.sessions == map[] && q.permits == q.maxSize == p.maxSize
    decreases p.sessions.Keys
  {
    if p.sessions == map[] {
      actions := [];
    } else {
      var s :| s in p.sessions;
      var first := SessionLeaves(p, s);
      RunKeeps(p, first);
      assert After(p, first).sessions.Keys == p.sessions.Keys - {s};
      var rest := EverythingReturns(After(p, first));
      RunConcat(p, first, rest);
      actions := first + rest;
    }
  }

  /** So a session that waits for a permit can be served, however the pool got where it is. */
  lemma WaitingIsServed(maxSize: nat, before: seq<Action>, s: Session) returns (after: seq<Action>)
    requires maxSize > 0 && Executable(Fresh(maxSize), before) && s !in After(Fresh(maxSize), before).sessions
    ensures Executable(Fresh(maxSize), before + after)
    ensures Enabled(After(Fresh(maxSize), before + after), Acquire(s))
  {
    var f := Fresh(maxSize);
    assert Holders(f) == {} && f.sessions.Keys == {};
    RunKeeps(f, before);
    after := EverythingReturns(After(f, before));
    RunConcat(f, before, after);
  }

  // ------------------------------------------------------------------------ the class

  class Neo4jConnectionPool {
    const maxSize: nat
    var available: nat
    var pool: seq<Client>
    var created: nat
    ghost var sessions: map<Session, Phase>
    ghost var closed: set<Client>

    ghost function Now(): Pool
      reads this
    {
      Pool(maxSize, available, pool, sessions, created, closed)
    }

    constructor (maxSize: nat)
      ensures this.maxSize == maxSize && Now() == Fresh(maxSize)
      ensures available == maxSize && pool == [] && created == 0 && sessions == map[] && closed == {}
    {
      this.maxSize, available, pool, created := maxSize, maxSize, [], 0;
      sessions, closed := map[], {};
    }

    /** `get_client` once a permit is free: take a pooled client, create one, or give the permit back. */
    method GetClient(ghost s: Session, creationFails: bool) returns (client: Option<Client>)
      requires Enabled(Now(), Acquire(s))
      modifies this
      ensures client.None? <==> old(pool) == [] && creationFails
      ensures client.None? ==>
                var p := Apply(Apply(old(Now()), Acquire(s)), CreationFails(s));
                Enabled(p, Release(s)) && Now() == Apply(p, Release(s))
      ensures client.None? ==> Now() == old(Now())
      ensures client.Some? ==>
                var p := Apply(old(Now()), Acquire(s));
                && Enabled(p, TakeOrCreate(s)) && Now() == Apply(p, TakeOrCreate(s))
                && sessions[s] == Holding(client.value)
      ensures client.Some? ==> available == old(available) - 1 && closed == old(closed)
      ensures client.Some? ==>
                if old(pool) == [] then client.value == old(created) && created == old(created) + 1 && pool == []
                else pool + [client.value] == old(pool) && created == old(created)
    {
      available := available - 1;
      sessions := sessions[s := Acquired];
      if pool == [] {
        if creationFails {
          sessions := sessions[s := Leaving];
          available := available + 1;
          sessions := sessions - {s};
          return None;
        }
        client := Some(created);
        created := created + 1;
      } else {
        client := Some(pool[|pool| - 1]);
        pool := pool[..|pool| - 1];
      }
      sessions := sessions[s := Holding(client.value)];
    }

    method ReleaseClient(client: Client, ghost s: Session)
      requires s in sessions && sessions[s] == Holding(client)
      modifies this
      ensures var p := Apply(old(Now()), GiveBack(s));
              Enabled(p, Release(s)) && Now() == Apply(p, Release(s))
      ensures pool == old(pool) + [client] && available == old(available) + 1 && sessions == old(sessions) - {s}
      ensures created == old(created) && closed == old(closed)
    {
      pool := pool + [client];
      sessions := sessions[s := Leaving];
      available := available + 1;
      sessions := sessions - {s};
    }

    method CloseAll()
      modifies this
      ensures Now() == Apply(old(Now()), Action.CloseAll)
      ensures pool == [] && forall c :: c in closed <==> c in old(closed) || c in old(pool)
      ensures available == old(available) && created == old(created) && sessions == old(sessions)
    {
      for i := 0 to |pool|
        invariant closed == old(closed) + Elements(pool[..i])
        invariant pool == old(pool) && available == old(available)
        invariant created == old(created) && sessions == old(sessions)
      {
        TakeOneMore(pool, i);
        closed := closed + {pool[i]};
      }
      assert pool[..|pool|] == pool;
      pool := [];
    }
  }
}
