/** FirebirdConnectionPool: leases, the idle queue and its counters, first as steps that
    concurrent callers may interleave in any way, then as the object that makes them. */
module ConnectionPool {
  import opened Wrappers

  /** `maxSize` 0 means no cap, `idleTimeout` 0 means no expiry. */
  datatype PoolConfig = PoolConfig(enabled: bool, maxSize: nat, idleTimeout: nat)

  datatype IdleEntry = IdleEntry(conn: nat, releasedAt: int)

  /** A connection is a number, given in order of creation. `starting` were created but
      are not counted active yet, `ending` are no longer counted active but not yet parked
      or dropped, `lost` counts leases whose holder failed without releasing. */
  datatype Pool = Pool(
    config: PoolConfig, now: int,
    idle: seq<IdleEntry>, leased: set<nat>, starting: set<nat>, ending: set<nat>, lost: nat,
    active: int, created: nat, reused: nat, discarded: nat)

  function Empty(config: PoolConfig, now: int): Pool {
    Pool(config, now, [], {}, {}, {}, 0, 0, 0, 0, 0)
  }

  // --- expiry -----------------------------------------------------------------------------

  predicate Expired(e: IdleEntry, now: int, c: PoolConfig) {
    c.idleTimeout > 0 && now - e.releasedAt > c.idleTimeout
  }

  /** How many entries the expiry loop drops from the front. */
  function ExpiredPrefix(idle: seq<IdleEntry>, now: int, c: PoolConfig): (n: nat)
    ensures n <= |idle|
  {
    if idle != [] && Expired(idle[0], now, c) then 1 + ExpiredPrefix(idle[1..], now, c) else 0
  }

  function Unexpired(idle: seq<IdleEntry>, now: int, c: PoolConfig): seq<IdleEntry> {
    if idle == [] then []
    else (if Expired(idle[0], now, c) then [] else [idle[0]]) + Unexpired(idle[1..], now, c)
  }

  ghost predicate Sorted(idle: seq<IdleEntry>) {
    forall i, j :: 0 <= i <= j < |idle| ==> idle[i].releasedAt <= idle[j].releasedAt
  }

  lemma SortedTail(idle: seq<IdleEntry>)
    requires Sorted(idle) && idle != []
    ensures Sorted(idle[1..])
  {
  }

  lemma {:induction false} NoneExpired(idle: seq<IdleEntry>, now: int, c: PoolConfig)
    requires forall i :: 0 <= i < |idle| ==> !Expired(idle[i], now, c)
    ensures Unexpired(idle, now, c) == idle
  {
    if idle == [] {
    } else {
      assert forall i :: 0 <= i < |idle| - 1 ==> idle[1..][i] == idle[i + 1];
      NoneExpired(idle[1..], now, c);
      assert idle == [idle[0]] + idle[1..];
    }
  }

  /** The queue is ordered by release time, so dropping the expired prefix removes exactly
      the expired entries. */
  lemma {:induction false} PrefixIsAll(idle: seq<IdleEntry>, now: int, c: PoolConfig)
    requires Sorted(idle)
    ensures idle[ExpiredPrefix(idle, now, c)..] == Unexpired(idle, now, c)
    ensures forall i :: 0 <= i < |idle| ==> (Expired(idle[i], now, c) <==> i < ExpiredPrefix(idle, now, c))
  {
    if idle == [] {
    } else {
      if Expired(idle[0], now, c) {
        SortedTail(idle);
        PrefixIsAll(idle[1..], now, c);
        var n := ExpiredPrefix(idle[1..], now, c);
        assert idle[1..][n..] == idle[1 + n..];
        forall i | 0 <= i < |idle| ensures Expired(idle[i], now, c) <==> i < 1 + n {
          if i > 0 { assert idle[i] == idle[1..][i - 1]; }
        }
      } else {
        NoneExpired(idle, now, c);
      }
    }
  }

  // --- steps ------------------------------------------------------------------------------------

  /** What one caller does to shared state at a time: everything between two points where
      another caller may come in. */
  datatype Step =
    | Tick(time: int)
    | Reuse
    | Create
    | Activate(conn: nat)
    | BeginRelease(conn: nat)
    | EndRelease(conn: nat)
    | Lose(conn: nat)

  function Expire(s: Pool): Pool {
    var drop := ExpiredPrefix(s.idle, s.now, s.config);
    s.(idle := s.idle[drop..], discarded := s.discarded + drop)
  }

  /** The newest idle connection, if any. */
  function TakeNewest(s: Pool): Pool {
    if s.idle == [] then s
    else
      var last := s.idle[|s.idle| - 1].conn;
      s.(idle := s.idle[..|s.idle| - 1], leased := s.leased + {last}, reused := s.reused + 1, active := s.active + 1)
  }

  function Park(s: Pool, conn: nat): Pool {
    var t := s.(ending := s.ending - {conn});
    if !s.config.enabled || (s.config.maxSize > 0 && |s.idle| >= s.config.maxSize)
    then t.(discarded := s.discarded + 1)
    else t.(idle := s.idle + [IdleEntry(conn, s.now)])
  }

  function Next(s: Pool, step: Step): Pool {
    match step
    case Tick(time) => if time >= s.now then s.(now := time) else s
    case Reuse => if s.config.enabled then TakeNewest(Expire(s)) else s
    case Create => s.(created := s.created + 1, starting := s.starting + {s.created})
    case Activate(conn) =>
      if conn !in s.starting then s
      else s.(starting := s.starting - {conn}, leased := s.leased + {conn}, active := s.active + 1)
    case BeginRelease(conn) =>
      if conn !in s.leased then s
      else s.(leased := s.leased - {conn}, ending := s.ending + {conn}, active := s.active - 1)
    case EndRelease(conn) => if conn in s.ending then Park(s, conn) else s
    case Lose(conn) => if conn in s.leased then s.(leased := s.leased - {conn}, lost := s.lost + 1) else s
  }

  function Run(s: Pool, steps: seq<Step>): Pool
    decreases |steps|
  {
    if steps == [] then s else Run(Next(s, steps[0]), steps[1..])
  }

  // --- the invariant --------------------------------------------------------------------------------

  /** A caller holds the connection, or is on its way to or from holding it. */
  predicate Held(s: Pool, conn: nat) { conn in s.leased || conn in s.starting || conn in s.ending }

  /** Every connection ever created is in exactly one place, or was discarded or lost. */
  ghost predicate Accounted(s: Pool) {
    && s.created == s.active + |s.starting| + |s.ending| + |s.idle| + s.discarded
    && s.active == |s.leased| + s.lost
  }

  /** No connection is in two places. */
  ghost predicate Exclusive(s: Pool) {
    && (forall i, j :: 0 <= i < j < |s.idle| ==> s.idle[i].conn != s.idle[j].conn)
    && (forall i :: 0 <= i < |s.idle| ==> s.idle[i].conn < s.created && !Held(s, s.idle[i].conn))
    && s.leased !! s.starting && s.leased !! s.ending && s.starting !! s.ending
    && (forall c :: c in s.leased ==> c < s.created)
    && (forall c :: c in s.starting ==> c < s.created)
    && (forall c :: c in s.ending ==> c < s.created)
  }

  ghost predicate Ordered(s: Pool) {
    && Sorted(s.idle)
    && (forall i :: 0 <= i < |s.idle| ==> s.idle[i].releasedAt <= s.now)
    && (s.config.maxSize > 0 ==> |s.idle| <= s.config.maxSize)
    && (!s.config.enabled ==> s.idle == [])
  }

  ghost predicate Good(s: Pool) { Accounted(s) && Exclusive(s) && Ordered(s) }

  lemma ExpireGood(s: Pool)
    requires Good(s)
    ensures Good(Expire(s)) && Expire(s).idle == Unexpired(s.idle, s.now, s.config)
    ensures forall i :: 0 <= i < |Expire(s).idle| ==> !Expired(Expire(s).idle[i], s.now, s.config)
  {
    PrefixIsAll(s.idle, s.now, s.config);
  }

  lemma TakeGood(s: Pool)
    requires Good(s)
    ensures Good(TakeNewest(s))
  {
    TakeExclusive(s);
    TakeAccounted(s);
  }

  lemma TakeExclusive(s: Pool)
    requires Exclusive(s)
    ensures Exclusive(TakeNewest(s))
  {
  }

  lemma TakeAccounted(s: Pool)
    requires Accounted(s) && Exclusive(s)
    ensures Accounted(TakeNewest(s))
  {
    if s.idle != [] { assert !Held(s, s.idle[|s.idle| - 1].conn); }
  }

  lemma {:induction false} ParkGood(s: Pool, conn: nat)
    requires Good(s) && conn in s.ending
    ensures Good(Park(s, conn))
  {
  }

  lemma CreateGood(s: Pool)
    requires Good(s)
    ensures Good(Next(s, Create))
  {
    assert s.created !in s.starting;
  }

  lemma ActivateGood(s: Pool, conn: nat)
    requires Good(s) && conn in s.starting
    ensures Good(Next(s, Activate(conn)))
  {
    assert conn !in s.leased;
  }

  lemma BeginGood(s: Pool, conn: nat)
    requires Good(s) && conn in s.leased
    ensures Good(Next(s, BeginRelease(conn)))
  {
    assert conn !in s.ending;
  }

  lemma StepGood(s: Pool, step: Step)
    requires Good(s)
    ensures Good(Next(s, step))
  {
    match step
    case Reuse => if s.config.enabled { ExpireGood(s); TakeGood(Expire(s)); }
    case Create => CreateGood(s);
    case Activate(conn) => if conn in s.starting { ActivateGood(s, conn); }
    case BeginRelease(conn) => if conn in s.leased { BeginGood(s, conn); }
    case EndRelease(conn) => if conn in s.ending { ParkGood(s, conn); }
    case _ =>
  }

  lemma ReleaseGood(s: Pool, conn: nat, time: int)
    requires Good(s)
    ensures Good(Next(Next(Next(s, BeginRelease(conn)), Tick(time)), EndRelease(conn)))
  {
    StepGood(s, BeginRelease(conn));
    StepGood(Next(s, BeginRelease(conn)), Tick(time));
    StepGood(Next(Next(s, BeginRelease(conn)), Tick(time)), EndRelease(conn));
  }

  lemma {:induction false} RunGood(s: Pool, steps: seq<Step>)
    requires Good(s)
    ensures Good(Run(s, steps))
    decreases |steps|
  {
    if steps == [] {
    } else {
      StepGood(s, steps[0]);
      RunGood(Next(s, steps[0]), steps[1..]);
    }
  }

  /** Every reachable state, whatever the interleaving: created = active + idle +
      discarded + those between two counters; no connection is idle and leased, or in two
      places of any kind; the cap bounds the idle queue; release times are sorted. */
  lemma EveryReachable(config: PoolConfig, now: int, steps: seq<Step>)
    ensures Good(Run(Empty(config, now), steps))
  {
    RunGood(Empty(config, now), steps);
  }

  /** With no call in progress and no lost lease, the connections are the leased ones, the
      idle ones and the discarded ones; after lost leases `active` exceeds the leased ones by
      exactly those. */
  lemma Quiescent(config: PoolConfig, now: int, steps: seq<Step>)
    ensures var s := Run(Empty(config, now), steps);
            s.starting == {} && s.ending == {} ==>
              && s.created == |s.leased| + s.lost + |s.idle| + s.discarded
              && (s.active == |s.leased| <==> s.lost == 0)
  {
    EveryReachable(config, now, steps);
  }

  /** A reuse takes the newest unexpired connection, drops the expired ones and counts both. */
  lemma {:induction false} ReuseExact(s: Pool)
    requires Good(s) && s.config.enabled
    ensures var live := Unexpired(s.idle, s.now, s.config);
            && Expire(s).idle == live && Next(s, Reuse).created == s.created
            && Next(s, Reuse).discarded == s.discarded + |s.idle| - |live|
            && (live != [] ==>
                  var taken := live[|live| - 1];
                  && taken == s.idle[|s.idle| - 1] && !Expired(taken, s.now, s.config)
                  && Next(s, Reuse).leased == s.leased + {taken.conn} && taken.conn !in s.leased
                  && Next(s, Reuse).reused == s.reused + 1)
  {
    ExpireGood(s);
    PrefixIsAll(s.idle, s.now, s.config);
  }

  lemma LiveRemains(s: Pool, i: nat)
    requires Good(s) && i < |s.idle| && !Expired(s.idle[i], s.now, s.config)
    ensures Unexpired(s.idle, s.now, s.config) != []
  {
    PrefixIsAll(s.idle, s.now, s.config);
  }

  /** In every reachable state a reused connection is the most recently released one, has not
      expired, and nobody else holds it; and there is one while some idle connection is
      within the timeout. */
  lemma {:induction false} ReuseIsSafe(config: PoolConfig, now: int, steps: seq<Step>)
    ensures var s := Run(Empty(config, now), steps);
            var live := Unexpired(s.idle, s.now, s.config);
            config.enabled && live != [] ==>
              var taken := live[|live| - 1];
              && Next(s, Reuse).leased == s.leased + {taken.conn} && taken.conn !in s.leased
              && (config.idleTimeout == 0 || s.now - taken.releasedAt <= config.idleTimeout)
              && (forall i :: 0 <= i < |s.idle| ==> s.idle[i].releasedAt <= taken.releasedAt)
              && Next(s, Reuse).reused == s.reused + 1 && Next(s, Reuse).created == s.created
              && Next(s, Reuse).discarded == s.discarded + |s.idle| - |live|
    ensures var s := Run(Empty(config, now), steps);
            forall i :: 0 <= i < |s.idle| && s.now - s.idle[i].releasedAt <= config.idleTimeout ==>
              Unexpired(s.idle, s.now, s.config) != []
  {
    var s := Run(Empty(config, now), steps);
    EveryReachable(config, now, steps);
    RunConfig(Empty(config, now), steps);
    if config.enabled { ReuseExact(s); }
    forall i | 0 <= i < |s.idle| && s.now - s.idle[i].releasedAt <= config.idleTimeout
      ensures Unexpired(s.idle, s.now, s.config) != []
    {
      LiveRemains(s, i);
    }
  }

  lemma {:induction false} RunConfig(s: Pool, steps: seq<Step>)
    ensures Run(s, steps).config == s.config
    decreases |steps|
  {
    if steps == [] {
    } else {
      RunConfig(Next(s, steps[0]), steps[1..]);
    }
  }

  /** The warm leases of a run. */
  function WarmLeases(s: Pool, steps: seq<Step>): nat
    decreases |steps|
  {
    if steps == [] then 0
    else (if steps[0].Reuse? && Next(s, Reuse).leased != s.leased then 1 else 0) + WarmLeases(Next(s, steps[0]), steps[1..])
  }

  lemma {:induction false} WarmCounted(s: Pool, steps: seq<Step>)
    requires Good(s)
    ensures Run(s, steps).reused == s.reused + WarmLeases(s, steps)
    decreases |steps|
  {
    if steps == [] {
    } else {
      StepGood(s, steps[0]);
      WarmStep(s, steps[0]);
      WarmCounted(Next(s, steps[0]), steps[1..]);
    }
  }

  lemma TakeNew(s: Pool)
    requires Good(s)
    ensures TakeNewest(s).leased == s.leased <==> s.idle == []
  {
    if s.idle != [] { assert s.idle[|s.idle| - 1].conn !in s.leased; }
  }

  lemma WarmStep(s: Pool, step: Step)
    requires Good(s)
    ensures Next(s, step).reused == s.reused + if step.Reuse? && Next(s, Reuse).leased != s.leased then 1 else 0
  {
    if step.Reuse? && s.config.enabled {
      ExpireGood(s);
      TakeNew(Expire(s));
    }
  }

  /** The counter of reuses is the number of warm leases of the whole run. */
  lemma ReusesCounted(config: PoolConfig, now: int, steps: seq<Step>)
    ensures Run(Empty(config, now), steps).reused == WarmLeases(Empty(config, now), steps)
  {
    WarmCounted(Empty(config, now), steps);
  }

  // --- the object -----------------------------------------------------------------------------------

  /** A lease: the connection and whether it was recycled. */
  datatype Lease = Lease(conn: nat, reused: bool)

  /** The state an acquire looks for an idle connection in. */
  function Searched(s: Pool, time: int): Pool {
    if s.config.enabled then Expire(Next(s, Tick(time))) else s
  }

  function Warm(s: Pool, time: int): bool { s.config.enabled && Searched(s, time).idle != [] }

  /** An acquire as steps: reuse if the pool is enabled, else or failing that a creation. */
  function Acquired(s: Pool, time: int, connects: bool): Pool {
    if Warm(s, time) then Next(Next(s, Tick(time)), Reuse)
    else
      var t := Searched(s, time);
      if connects then Next(Next(t, Create), Activate(t.created)) else t
  }

  /** The lease it gives: the most recently released connection, else a new one. */
  function Leased(s: Pool, time: int, connects: bool): Option<Lease> {
    var t := Searched(s, time);
    if Warm(s, time) then Some(Lease(t.idle[|t.idle| - 1].conn, true))
    else if connects then Some(Lease(s.created, false)) else None
  }

  lemma {:induction false} SearchedGood(s: Pool, time: int)
    requires Good(s)
    ensures Good(Searched(s, time)) && Searched(s, time).leased == s.leased && Searched(s, time).created == s.created
    ensures s.created !in Searched(s, time).starting
  {
    StepGood(s, Tick(time));
    ExpireGood(Next(s, Tick(time)));
  }

  lemma {:induction false} WarmGood(s: Pool, time: int, connects: bool)
    requires Good(s) && Warm(s, time)
    ensures var lease, t := Leased(s, time, connects), Acquired(s, time, connects);
            Good(t) && lease.Some? && lease.value.conn !in s.leased && t.leased == s.leased + {lease.value.conn}
            && lease.value.reused && lease.value.conn < s.created
  {
    SearchedGood(s, time);
    TakeGood(Searched(s, time));
  }

  lemma {:induction false} ColdGood(s: Pool, time: int, connects: bool)
    requires Good(s) && !Warm(s, time)
    ensures var lease, t := Leased(s, time, connects), Acquired(s, time, connects);
            && Good(t) && lease.Some? == connects
            && (connects ==> lease.value.conn !in s.leased && t.leased == s.leased + {lease.value.conn})
            && (connects ==> !lease.value.reused && lease.value.conn == s.created)
            && (!connects ==> t.leased == s.leased)
  {
    SearchedGood(s, time);
    var t := Searched(s, time);
    if connects {
      CreateGood(t);
      ActivateGood(Next(t, Create), t.created);
    }
  }

  lemma {:induction false} AcquiredGood(s: Pool, time: int, connects: bool)
    requires Good(s)
    ensures Good(Acquired(s, time, connects)) && s.created !in Searched(s, time).starting
    ensures var lease := Leased(s, time, connects);
            if lease.Some? then
              && lease.value.conn !in s.leased && Acquired(s, time, connects).leased == s.leased + {lease.value.conn}
              && (lease.value.reused <==> lease.value.conn < s.created)
            else Acquired(s, time, connects).leased == s.leased
  {
    SearchedGood(s, time);
    if Warm(s, time) { WarmGood(s, time, connects); } else { ColdGood(s, time, connects); }
  }

  /** A release, when nobody comes in between. */
  function Released(s: Pool, conn: nat, time: int): Pool {
    Next(Next(Next(s, BeginRelease(conn)), Tick(time)), EndRelease(conn))
  }

  predicate HasRoom(s: Pool) { s.config.enabled && (s.config.maxSize == 0 || |s.idle| < s.config.maxSize) }

  /** A lease that is given back is parked, as the newest, exactly when the pool has room for
      it, and else dropped and counted. */
  lemma {:induction false} ReleaseExact(s: Pool, conn: nat, time: int)
    requires Good(s) && conn in s.leased && s.now <= time
    ensures var t := Released(s, conn, time);
            && Good(t) && t.now == time && t.config == s.config
            && t.leased == s.leased - {conn} && t.ending == s.ending && t.active == s.active - 1
            && t.created == s.created && t.reused == s.reused
            && t.idle == (if HasRoom(s) then s.idle + [IdleEntry(conn, time)] else s.idle)
            && t.discarded == s.discarded + (if HasRoom(s) then 0 else 1)
  {
    ReleaseGood(s, conn, time);
    assert s.ending + {conn} - {conn} == s.ending;
  }

  /** A parked connection is the one the next acquire leases, if that comes before it
      expires. */
  lemma {:induction false} ReleaseThenAcquire(s: Pool, conn: nat, time: int, later: int, connects: bool)
    requires Good(s) && conn in s.leased && s.now <= time <= later
    requires HasRoom(s) && (s.config.idleTimeout == 0 || later - time <= s.config.idleTimeout)
    ensures var t := Released(s, conn, time);
            && Leased(t, later, connects) == Some(Lease(conn, true))
            && Acquired(t, later, connects).leased == s.leased && Acquired(t, later, connects).active == s.active
            && Acquired(t, later, connects).reused == s.reused + 1
  {
    ReleaseExact(s, conn, time);
    AcquireNewest(Released(s, conn, time), later, connects);
    assert s.leased - {conn} + {conn} == s.leased;
  }

  /** A pool whose newest idle connection has not expired leases it. */
  lemma AcquireNewest(s: Pool, later: int, connects: bool)
    requires Good(s) && s.config.enabled && s.now <= later
    requires s.idle != [] && !Expired(s.idle[|s.idle| - 1], later, s.config)
    ensures var conn := s.idle[|s.idle| - 1].conn;
            && Leased(s, later, connects) == Some(Lease(conn, true))
            && Acquired(s, later, connects).leased == s.leased + {conn}
            && Acquired(s, later, connects).active == s.active + 1 && Acquired(s, later, connects).reused == s.reused + 1
  {
    StepGood(s, Tick(later));
    NewestStays(Next(s, Tick(later)));
  }

  /** While the newest idle connection has not expired, dropping what has keeps it. */
  lemma NewestStays(s: Pool)
    requires Good(s) && s.idle != [] && !Expired(s.idle[|s.idle| - 1], s.now, s.config)
    ensures var t := Expire(s); t.idle != [] && t.idle[|t.idle| - 1] == s.idle[|s.idle| - 1]
  {
    PrefixIsAll(s.idle, s.now, s.config);
  }

  class FirebirdConnectionPool {
    const config: PoolConfig
    var idle: seq<IdleEntry>
    var active: int
    var totalCreated: nat
    var totalReused: nat
    var totalDiscarded: nat
    var lastError: string
    ghost var now: int
    ghost var leased: set<nat>
    ghost var starting: set<nat>
    ghost var ending: set<nat>
    ghost var lost: nat

    constructor (config: PoolConfig, ghost now: int)
      ensures View() == Empty(config, now) && lastError == ""
    {
      this.config, idle, active := config, [], 0;
      totalCreated, totalReused, totalDiscarded, lastError := 0, 0, 0, "";
      this.now, leased, starting, ending, lost := now, {}, {}, {}, 0;
    }

    ghost function View(): Pool
      reads this
    {
      Pool(config, now, idle, leased, starting, ending, lost, active, totalCreated, totalReused, totalDiscarded)
    }

    /** Drops what has expired. */
    method DropExpired(time: int)
      requires now <= time
      modifies this
      ensures View() == Expire(Next(old(View()), Tick(time))) && lastError == old(lastError)
    {
      now := time;
      if config.idleTimeout > 0 && idle != [] {
        var drop := CountExpired(time);
        if drop > 0 {
          idle := idle[drop..];
          totalDiscarded := totalDiscarded + drop;
        }
      }
    }

    /** The part of an acquire under the lock: drops what has expired, then takes the
        newest idle connection. */
    method TryReuse(time: int) returns (conn: Option<nat>)
      requires config.enabled && now <= time
      modifies this
      ensures View() == Next(Next(old(View()), Tick(time)), Reuse) && lastError == old(lastError)
      ensures var live := Expire(Next(old(View()), Tick(time))).idle;
              conn == if live == [] then None else Some(live[|live| - 1].conn)
    {
      DropExpired(time);
      if idle == [] { return None; }
      var last := TakeLast();
      conn := Some(last);
    }

    method TakeLast() returns (conn: nat)
      requires idle != []
      modifies this
      ensures View() == TakeNewest(old(View())) && conn == old(idle)[|old(idle)| - 1].conn && lastError == old(lastError)
    {
      conn := idle[|idle| - 1].conn;
      idle := idle[..|idle| - 1];
      totalReused := totalReused + 1;
      active := active + 1;
      leased := leased + {conn};
    }

    /** The expiry loop. */
    method CountExpired(time: int) returns (drop: nat)
      requires config.idleTimeout > 0
      ensures drop == ExpiredPrefix(idle, time, config)
    {
      drop := 0;
      assert idle[0..] == idle;
      while drop < |idle| && time - idle[drop].releasedAt > config.idleTimeout
        invariant drop <= |idle| && drop + ExpiredPrefix(idle[drop..], time, config) == ExpiredPrefix(idle, time, config)
      {
        assert idle[drop..][0] == idle[drop] && idle[drop..][1..] == idle[drop + 1..];
        drop := drop + 1;
      }
    }

    /** A fresh connection; `connects` tells whether the server accepted it. */
    method CreateFresh(connects: bool, error: string) returns (conn: Option<nat>)
      requires totalCreated !in starting
      modifies this
      ensures !connects ==> conn == None && View() == old(View()) && lastError == error
      ensures connects ==> conn == Some(old(totalCreated)) && lastError == old(lastError) &&
                           View() == Next(Next(old(View()), Create), Activate(conn.value))
    {
      if !connects {
        lastError := error;
        return None;
      }
      conn := Some(totalCreated);
      totalCreated := totalCreated + 1;
      active := active + 1;
      leased := leased + {conn.value};
      assert starting + {conn.value} - {conn.value} == starting;
    }

    /** Leases a connection at time `time`: a warm one if the pool is enabled and has one,
        else a fresh one. None when the server refused; then no counter but those of the
        expired entries has changed. */
    method AcquireWithInfo(time: int, connects: bool, error: string) returns (lease: Option<Lease>)
      requires Good(View()) && now <= time
      modifies this
      ensures Good(View()) && View() == Acquired(old(View()), time, connects)
      ensures lease == Leased(old(View()), time, connects)
      ensures lease.Some? ==> lease.value.conn !in old(leased) && leased == old(leased) + {lease.value.conn}
      ensures lease.Some? ==> (lease.value.reused <==> lease.value.conn < old(totalCreated))
      ensures lease.None? ==> leased == old(leased) && !connects && lastError == error
    {
      AcquiredGood(View(), time, connects);
      if config.enabled {
        var warm := TryReuse(time);
        if warm.Some? { return Some(Lease(warm.value, true)); }
      }
      var made := CreateFresh(connects, error);
      lease := if made.Some? then Some(Lease(made.value, false)) else None;
    }

    method StartOfRelease(conn: nat)
      requires conn in leased
      modifies this
      ensures View() == Next(old(View()), BeginRelease(conn)) && lastError == old(lastError) && conn in ending && now == old(now)
    {
      active := active - 1;
      leased, ending := leased - {conn}, ending + {conn};
    }

    /** The part of a release under the lock: parks the connection, or drops it past the
        cap or when the pool is disabled. */
    method EndOfRelease(conn: nat, time: int)
      requires now <= time && conn in ending
      modifies this
      ensures View() == Next(Next(old(View()), Tick(time)), EndRelease(conn)) && lastError == old(lastError)
    {
      now := time;
      ending := ending - {conn};
      if !config.enabled {
        totalDiscarded := totalDiscarded + 1;
      } else if config.maxSize > 0 && |idle| >= config.maxSize {
        totalDiscarded := totalDiscarded + 1;
      } else {
        idle := idle + [IdleEntry(conn, time)];
      }
    }

    /** Gives a lease back. */
    method Release(conn: Option<nat>, time: int)
      requires Good(View()) && now <= time && (conn.Some? ==> conn.value in leased)
      modifies this
      ensures Good(View()) && lastError == old(lastError)
      ensures View() == if conn.None? then old(View()) else Released(old(View()), conn.value, time)
    {
      if conn.None? { return; }
      ReleaseGood(View(), conn.value, time);
      StartOfRelease(conn.value);
      EndOfRelease(conn.value, time);
    }
  }
}
