/**
 * The database connection pool: idle queue, list of all connections and counters.
 * `Pool` is its state as a value, each function below is one section under the pool's
 * mutex, and class `ConnectionPool` performs them in place.
 */
module DatabasePool {
  import opened Collections

  /** A connection handle: the identity of a connection object. */
  type Conn = nat

  datatype Config = Config(minConnections: nat, maxConnections: nat, maxIdleSeconds: nat)

  datatype Pool = Pool(
    idle: seq<Conn>,
    all: seq<Conn>,
    used: set<Conn>,      // the connections of `all` that are marked in use
    acquires: nat,
    releases: nat,
    timeouts: nat,
    errors: nat)

  // ---------- what each operation does ----------

  /** Finds the first occurrence and erases it, if there is one. */
  function Erase(s: seq<Conn>, x: Conn): (r: seq<Conn>)
    ensures |r| <= |s|
  {
    if s == [] then [] else if s[0] == x then s[1..] else [s[0]] + Erase(s[1..], x)
  }

  function Forgotten(p: Pool, c: Conn): Pool {
    p.(all := Erase(p.all, c), used := p.used - {c})
  }

  /** Idle connections that fail the check are dropped; the first that passes is handed out. */
  function TakeIdle(p: Pool, valid: Conn -> bool): (Pool, Option<Conn>)
    decreases |p.idle|
  {
    if p.idle == [] then (p, None)
    else
      var c, rest := p.idle[0], p.(idle := p.idle[1..]);
      if valid(c) then (rest.(used := p.used + {c}, acquires := p.acquires + 1), Some(c))
      else TakeIdle(Forgotten(rest, c), valid)
  }

  /**
   * One pass of acquire while the lock is held: an idle connection, or failing that a new one
   * if there is room. `created` is what connecting would yield.
   */
  function Acquire(cfg: Config, p: Pool, valid: Conn -> bool, created: Option<Conn>): (Pool, Option<Conn>) {
    var (q, got) := TakeIdle(p, valid);
    if got.Some? || |q.all| >= cfg.maxConnections then (q, got)
    else match created
      case None => (q.(errors := q.errors + 1), None)
      case Some(c) => (q.(all := q.all + [c], used := q.used + {c}, acquires := q.acquires + 1), Some(c))
  }

  function TryAcquire(p: Pool, valid: Conn -> bool): (Pool, Option<Conn>) {
    if p.idle == [] then (p, None)
    else
      var c, rest := p.idle[0], p.(idle := p.idle[1..]);
      if valid(c) then (rest.(used := p.used + {c}, acquires := p.acquires + 1), Some(c))
      else (Forgotten(rest, c), None)
  }

  function TimeOut(p: Pool): Pool {
    p.(timeouts := p.timeouts + 1)
  }

  function Release(p: Pool, c: Conn, valid: bool): Pool {
    var q := p.(used := p.used - {c}, releases := p.releases + 1);
    if valid then q.(idle := p.idle + [c]) else Forgotten(q, c)
  }

  function OpenOne(p: Pool, outcome: Option<Conn>): Pool {
    match outcome
    case None => p.(errors := p.errors + 1)
    case Some(c) => p.(idle := p.idle + [c], all := p.all + [c])
  }

  /** Opens connections one by one; a failure is counted and, in `Refill`, ends the attempt. */
  function Open(p: Pool, outcomes: seq<Option<Conn>>): Pool
    decreases |outcomes|
  {
    if outcomes == [] then p else Open(OpenOne(p, outcomes[0]), outcomes[1..])
  }

  function Refill(cfg: Config, p: Pool, results: seq<Conn>): Pool
    decreases |results|
  {
    if |p.all| >= cfg.minConnections then p
    else if results == [] then p.(errors := p.errors + 1)
    else Refill(cfg, p.(idle := p.idle + [results[0]], all := p.all + [results[0]]), results[1..])
  }

  /** The sweep of the idle queue: expired connections go while more than the minimum remain. */
  function Sweep(cfg: Config, p: Pool, kept: seq<Conn>, expired: Conn -> bool): Pool
    decreases |p.idle|
  {
    if p.idle == [] then p.(idle := kept)
    else
      var c, rest := p.idle[0], p.(idle := p.idle[1..]);
      if |p.all| > cfg.minConnections && expired(c) then Sweep(cfg, Forgotten(rest, c), kept, expired)
      else Sweep(cfg, rest, kept + [c], expired)
  }

  /** Sweep, then refill from the connections that can still be opened before connecting fails. */
  function Cleanup(cfg: Config, p: Pool, expired: Conn -> bool, results: seq<Conn>): Pool {
    Refill(cfg, Sweep(cfg, p, [], expired), results)
  }

  // ---------- the invariant ----------

  function Limit(cfg: Config): nat {
    if cfg.minConnections <= cfg.maxConnections then cfg.maxConnections else cfg.minConnections
  }

  /** Conservation: what is not idle is in use, and the counters agree. */
  ghost predicate Inv(cfg: Config, p: Pool) {
    && NoDuplicates(p.idle) && NoDuplicates(p.all)
    && Elements(p.idle) <= Elements(p.all)
    && p.used == Elements(p.all) - Elements(p.idle)
    && |p.all| <= Limit(cfg)
    && p.acquires == p.releases + |p.used|
    && |p.used| == |p.all| - |p.idle|
  }

  // ---------- every operation keeps it ----------

  lemma {:induction false} EraseMeans(s: seq<Conn>, x: Conn)
    requires NoDuplicates(s)
    ensures NoDuplicates(Erase(s, x)) && Elements(Erase(s, x)) == Elements(s) - {x}
    ensures |Erase(s, x)| == |s| - (if x in s then 1 else 0)
  {
    if s != [] {
      FirstElement(s);
      if s[0] != x {
        EraseMeans(s[1..], x);
        var r := Erase(s, x);
        assert r[0] == s[0] && r[1..] == Erase(s[1..], x);
        FirstElement(r);
        assert s[0] !in Elements(r[1..]);
      } else {
        assert x !in Elements(s[1..]);
      }
    }
  }

  lemma {:induction false} AppendKeepsDistinct(s: seq<Conn>, x: Conn)
    requires NoDuplicates(s) && x !in s
    ensures NoDuplicates(s + [x]) && Elements(s + [x]) == Elements(s) + {x}
  {
    if s != [] {
      assert (s + [x])[1..] == s[1..] + [x];
      AppendKeepsDistinct(s[1..], x);
    }
  }

  /** Taking the front of the idle queue to hand it out. */
  lemma FrontHandedOut(cfg: Config, p: Pool)
    requires Inv(cfg, p) && p.idle != []
    ensures var c := p.idle[0];
            c !in p.used && Inv(cfg, p.(idle := p.idle[1..], used := p.used + {c}, acquires := p.acquires + 1))
  {
    FirstElement(p.idle);
  }

  /** Taking the front of the idle queue to drop it. */
  lemma FrontDropped(cfg: Config, p: Pool)
    requires Inv(cfg, p) && p.idle != []
    ensures var q := Forgotten(p.(idle := p.idle[1..]), p.idle[0]);
            Inv(cfg, q) && q.used == p.used && Elements(q.all) <= Elements(p.all)
  {
    var c := p.idle[0];
    FirstElement(p.idle);
    EraseMeans(p.all, c);
    assert c in Elements(p.idle) && c in Elements(p.all);
    assert p.used - {c} == p.used;
  }

  lemma AddedIdle(cfg: Config, p: Pool, c: Conn)
    requires Inv(cfg, p) && |p.all| < Limit(cfg) && c !in p.all
    ensures Inv(cfg, p.(idle := p.idle + [c], all := p.all + [c]))
  {
    assert c !in Elements(p.idle);
    AppendKeepsDistinct(p.idle, c);
    AppendKeepsDistinct(p.all, c);
  }

  lemma AddedInUse(cfg: Config, p: Pool, c: Conn)
    requires Inv(cfg, p) && |p.all| < Limit(cfg) && c !in p.all
    ensures Inv(cfg, p.(all := p.all + [c], used := p.used + {c}, acquires := p.acquires + 1))
  {
    assert c !in Elements(p.idle);
    AppendKeepsDistinct(p.all, c);
  }

  lemma {:induction false} TakeIdleKeeps(cfg: Config, p: Pool, valid: Conn -> bool)
    requires Inv(cfg, p)
    ensures var (q, got) := TakeIdle(p, valid);
            && Inv(cfg, q) && Elements(q.all) <= Elements(p.all)
            && (got.Some? ==> got.value !in p.used && q.used == p.used + {got.value})
            && (got.None? ==> q.used == p.used)
    decreases |p.idle|
  {
    if p.idle != [] {
      if valid(p.idle[0]) {
        FrontHandedOut(cfg, p);
      } else {
        FrontDropped(cfg, p);
        TakeIdleKeeps(cfg, Forgotten(p.(idle := p.idle[1..]), p.idle[0]), valid);
      }
    }
  }

  lemma AcquireKeeps(cfg: Config, p: Pool, valid: Conn -> bool, created: Option<Conn>)
    requires Inv(cfg, p) && (created.Some? ==> created.value !in p.all)
    ensures var (q, got) := Acquire(cfg, p, valid, created);
            && Inv(cfg, q)
            && (got.Some? ==> got.value !in p.used && q.used == p.used + {got.value})
            && (got.None? ==> q.used == p.used)
  {
    TakeIdleKeeps(cfg, p, valid);
    var (q, got) := TakeIdle(p, valid);
    if got.None? && |q.all| < cfg.maxConnections && created.Some? {
      assert created.value !in Elements(q.all);
      AddedInUse(cfg, q, created.value);
    }
  }

  /** How many connections at the front of the queue fail the check. */
  function Stale(idle: seq<Conn>, valid: Conn -> bool): (n: nat)
    ensures n <= |idle|
    ensures forall i :: 0 <= i < n ==> !valid(idle[i])
    ensures n < |idle| ==> valid(idle[n])
  {
    if idle == [] || valid(idle[0]) then 0 else 1 + Stale(idle[1..], valid)
  }

  function AfterStale(p: Pool, valid: Conn -> bool): (Pool, Option<Conn>) {
    var n := Stale(p.idle, valid);
    var q := p.(all := Without(p.all, p.idle[..n]));
    if n == |p.idle| then (q.(idle := []), None)
    else
      var c := p.idle[n];
      (q.(idle := p.idle[n + 1..], used := p.used + {c}, acquires := p.acquires + 1), Some(c))
  }

  /** The queue is served in order: the first valid connection is taken and the stale ones before it are gone. */
  lemma {:induction false} TakeIdleExact(cfg: Config, p: Pool, valid: Conn -> bool)
    requires Inv(cfg, p)
    ensures TakeIdle(p, valid) == AfterStale(p, valid)
    decreases |p.idle|
  {
    if p.idle != [] && !valid(p.idle[0]) {
      FrontDropped(cfg, p);
      TakeIdleExact(cfg, Forgotten(p.(idle := p.idle[1..]), p.idle[0]), valid);
      assert p.idle[0] !in p.used by {
        FrontHandedOut(cfg, p);
      }
      StaleFront(p, valid);
    } else {
      WithoutNothing(p.all);
      assert p.idle[..0] == [];
    }
  }

  lemma StaleFront(p: Pool, valid: Conn -> bool)
    requires NoDuplicates(p.all) && p.idle != [] && !valid(p.idle[0]) && p.idle[0] !in p.used
    ensures AfterStale(p, valid) == AfterStale(Forgotten(p.(idle := p.idle[1..]), p.idle[0]), valid)
  {
    var c, rest := p.idle[0], p.idle[1..];
    var n := Stale(rest, valid);
    assert p.idle[..n + 1] == [c] + rest[..n];
    WithoutFirst(p.all, c, rest[..n]);
    assert p.used - {c} == p.used;
  }

  lemma TryAcquireKeeps(cfg: Config, p: Pool, valid: Conn -> bool)
    requires Inv(cfg, p)
    ensures var (q, got) := TryAcquire(p, valid);
            && Inv(cfg, q)
            && (got.Some? ==> got.value !in p.used && q.used == p.used + {got.value})
            && (got.None? ==> q.used == p.used)
  {
    if p.idle != [] {
      if valid(p.idle[0]) {
        FrontHandedOut(cfg, p);
      } else {
        FrontDropped(cfg, p);
      }
    }
  }

  lemma ReleaseKeeps(cfg: Config, p: Pool, c: Conn, valid: bool)
    requires Inv(cfg, p) && c in p.used
    ensures Inv(cfg, Release(p, c, valid)) && Release(p, c, valid).used == p.used - {c}
  {
    if valid {
      AppendKeepsDistinct(p.idle, c);
    } else {
      EraseMeans(p.all, c);
      assert p.used - {c} - {c} == p.used - {c};
      assert c !in Elements(p.idle) && c in Elements(p.all);
    }
  }

  /** The connections that were opened, in order. */
  function Opened(outcomes: seq<Option<Conn>>): seq<Conn> {
    if outcomes == [] then []
    else (if outcomes[0].Some? then [outcomes[0].value] else []) + Opened(outcomes[1..])
  }

  /** Connections just opened are new: unlike each other and unlike those in the pool. */
  ghost predicate AreNew(all: seq<Conn>, created: seq<Conn>) {
    NoDuplicates(created) && Elements(created) !! Elements(all)
  }

  lemma NewAfterFirst(all: seq<Conn>, created: seq<Conn>)
    requires AreNew(all, created) && created != []
    ensures created[0] !in all && AreNew(all + [created[0]], created[1..])
  {
    FirstElement(created);
    assert created[0] in Elements(created);
    assert Elements(all + [created[0]]) == Elements(all) + {created[0]};
    assert created[0] !in Elements(created[1..]);
  }

  lemma {:induction false} OpenKeeps(cfg: Config, p: Pool, outcomes: seq<Option<Conn>>)
    requires Inv(cfg, p) && |p.all| + |outcomes| <= Limit(cfg) && AreNew(p.all, Opened(outcomes))
    ensures Inv(cfg, Open(p, outcomes)) && Open(p, outcomes).used == p.used
    decreases |outcomes|
  {
    if outcomes != [] {
      OpenedFirst(p.all, outcomes);
      var next := OpenOne(p, outcomes[0]);
      assert Inv(cfg, next) by {
        if outcomes[0].Some? {
          AddedIdle(cfg, p, outcomes[0].value);
        }
      }
      OpenKeeps(cfg, next, outcomes[1..]);
    }
  }

  lemma OpenedFirst(all: seq<Conn>, outcomes: seq<Option<Conn>>)
    requires outcomes != [] && AreNew(all, Opened(outcomes))
    ensures match outcomes[0]
            case None => AreNew(all, Opened(outcomes[1..]))
            case Some(c) => c !in all && AreNew(all + [c], Opened(outcomes[1..]))
  {
    var created, rest := Opened(outcomes), Opened(outcomes[1..]);
    if outcomes[0].Some? {
      assert created[0] == outcomes[0].value && created[1..] == rest;
      NewAfterFirst(all, created);
    } else {
      assert created == rest;
    }
  }

  lemma {:induction false} RefillKeeps(cfg: Config, p: Pool, results: seq<Conn>)
    requires Inv(cfg, p) && AreNew(p.all, results)
    ensures Inv(cfg, Refill(cfg, p, results)) && Refill(cfg, p, results).used == p.used
    decreases |results|
  {
    if |p.all| < cfg.minConnections && results != [] {
      NewAfterFirst(p.all, results);
      AddedIdle(cfg, p, results[0]);
      RefillKeeps(cfg, p.(idle := p.idle + [results[0]], all := p.all + [results[0]]), results[1..]);
    }
  }

  // ---------- the sweep ----------

  function Surplus(cfg: Config, p: Pool): nat {
    if |p.all| > cfg.minConnections then |p.all| - cfg.minConnections else 0
  }

  /** The idle connections that have expired, in queue order. */
  function Expired(idle: seq<Conn>, expired: Conn -> bool): seq<Conn> {
    if idle == [] then []
    else (if expired(idle[0]) then [idle[0]] else []) + Expired(idle[1..], expired)
  }

  /** `s` without the elements of `drop`, in the same order. */
  function Without(s: seq<Conn>, drop: seq<Conn>): seq<Conn> {
    if s == [] then [] else (if s[0] in drop then [] else [s[0]]) + Without(s[1..], drop)
  }

  lemma {:induction false} WithoutOthers(s: seq<Conn>, x: Conn, drop: seq<Conn>)
    requires x !in s
    ensures Without(s, [x] + drop) == Without(s, drop)
  {
    if s != [] {
      FirstElement(s);
      WithoutOthers(s[1..], x, drop);
    }
  }

  lemma {:induction false} WithoutFirst(s: seq<Conn>, x: Conn, drop: seq<Conn>)
    requires NoDuplicates(s)
    ensures Without(s, [x] + drop) == Without(Erase(s, x), drop)
  {
    if s != [] {
      if s[0] == x {
        WithoutOthers(s[1..], x, drop);
      } else {
        WithoutFirst(s[1..], x, drop);
        assert Erase(s, x)[0] == s[0] && Erase(s, x)[1..] == Erase(s[1..], x);
      }
    }
  }

  lemma {:induction false} WithoutMeans(s: seq<Conn>, drop: seq<Conn>)
    requires NoDuplicates(s)
    ensures NoDuplicates(Without(s, drop)) && Elements(Without(s, drop)) == Elements(s) - Elements(drop)
  {
    if s != [] {
      FirstElement(s);
      WithoutMeans(s[1..], drop);
      var r := Without(s, drop);
      if s[0] in drop {
        assert r == Without(s[1..], drop);
      } else {
        assert r[0] == s[0] && r[1..] == Without(s[1..], drop);
        FirstElement(r);
      }
    }
  }

  lemma {:induction false} WithoutLength(s: seq<Conn>, drop: seq<Conn>)
    requires NoDuplicates(s) && NoDuplicates(drop) && Elements(drop) <= Elements(s)
    ensures |Without(s, drop)| == |s| - |drop|
    decreases |drop|
  {
    if drop == [] {
      WithoutNothing(s);
    } else {
      assert drop == [drop[0]] + drop[1..];
      EraseMeans(s, drop[0]);
      FirstElement(drop);
      WithoutLength(Erase(s, drop[0]), drop[1..]);
      WithoutFirst(s, drop[0], drop[1..]);
    }
  }

  lemma {:induction false} WithoutNothing(s: seq<Conn>)
    ensures Without(s, []) == s
  {
    if s != [] {
      WithoutNothing(s[1..]);
    }
  }

  lemma {:induction false} ExpiredMeans(idle: seq<Conn>, expired: Conn -> bool)
    requires NoDuplicates(idle)
    ensures NoDuplicates(Expired(idle, expired)) && Elements(Expired(idle, expired)) <= Elements(idle)
    ensures forall c :: c in Expired(idle, expired) <==> c in idle && expired(c)
  {
    if idle != [] {
      FirstElement(idle);
      ExpiredMeans(idle[1..], expired);
      var r := Expired(idle, expired);
      if expired(idle[0]) {
        assert r[0] == idle[0] && r[1..] == Expired(idle[1..], expired);
      } else {
        assert r == Expired(idle[1..], expired);
      }
    }
  }

  lemma {:induction false} PrefixKeepsDistinct(s: seq<Conn>, n: nat)
    requires NoDuplicates(s) && n <= |s|
    ensures NoDuplicates(s[..n])
  {
    if n > 0 {
      assert s[..n][1..] == s[1..][..n - 1];
      PrefixKeepsDistinct(s[1..], n - 1);
    }
  }

  /** The connections a sweep drops. */
  function Gone(cfg: Config, p: Pool, expired: Conn -> bool): seq<Conn> {
    UpTo(Expired(p.idle, expired), Surplus(cfg, p))
  }

  lemma GoneAreIdle(cfg: Config, p: Pool, expired: Conn -> bool)
    requires NoDuplicates(p.idle)
    ensures NoDuplicates(Gone(cfg, p, expired)) && Elements(Gone(cfg, p, expired)) <= Elements(p.idle)
  {
    ExpiredMeans(p.idle, expired);
    var e, n := Expired(p.idle, expired), Surplus(cfg, p);
    if n <= |e| {
      PrefixKeepsDistinct(e, n);
      assert Elements(e[..n]) <= Elements(e);
    }
  }

  ghost predicate SweepReady(p: Pool) {
    && NoDuplicates(p.idle) && NoDuplicates(p.all)
    && Elements(p.idle) <= Elements(p.all) && p.used !! Elements(p.idle)
  }

  function Swept(cfg: Config, p: Pool, kept: seq<Conn>, expired: Conn -> bool): Pool {
    var gone := Gone(cfg, p, expired);
    p.(idle := kept + Without(p.idle, gone), all := Without(p.all, gone))
  }

  /** The sweep drops exactly `Gone` and keeps everything else, in order. */
  lemma {:induction false} SweepDrops(cfg: Config, p: Pool, kept: seq<Conn>, expired: Conn -> bool)
    requires SweepReady(p)
    ensures Sweep(cfg, p, kept, expired) == Swept(cfg, p, kept, expired)
    decreases |p.idle|
  {
    if p.idle == [] {
      WithoutNothing(p.all);
      assert kept + [] == kept;
    } else {
      var c, rest := p.idle[0], p.(idle := p.idle[1..]);
      FirstElement(p.idle);
      if |p.all| > cfg.minConnections && expired(c) {
        EraseMeans(p.all, c);
        SweepDrops(cfg, Forgotten(rest, c), kept, expired);
        DropFirst(cfg, p, kept, expired);
      } else {
        SweepDrops(cfg, rest, kept + [c], expired);
        KeepFirst(cfg, p, kept, expired);
      }
    }
  }

  lemma DropFirst(cfg: Config, p: Pool, kept: seq<Conn>, expired: Conn -> bool)
    requires SweepReady(p) && p.idle != [] && |p.all| > cfg.minConnections && expired(p.idle[0])
    ensures Swept(cfg, p, kept, expired)
         == Swept(cfg, Forgotten(p.(idle := p.idle[1..]), p.idle[0]), kept, expired)
  {
    var c, rest := p.idle[0], p.idle[1..];
    var next := Forgotten(p.(idle := rest), c);
    var gone := Gone(cfg, next, expired);
    FirstElement(p.idle);
    GoneWithFirst(cfg, p, expired);
    assert p.used - {c} == p.used;
    assert Without(p.idle, [c] + gone) == Without(rest, [c] + gone);
    WithoutOthers(rest, c, gone);
    WithoutFirst(p.all, c, gone);
  }

  lemma GoneWithFirst(cfg: Config, p: Pool, expired: Conn -> bool)
    requires SweepReady(p) && p.idle != [] && |p.all| > cfg.minConnections && expired(p.idle[0])
    ensures var next := Forgotten(p.(idle := p.idle[1..]), p.idle[0]);
            Gone(cfg, p, expired) == [p.idle[0]] + Gone(cfg, next, expired)
  {
    var c, e := p.idle[0], Expired(p.idle[1..], expired);
    assert c in Elements(p.idle);
    EraseMeans(p.all, c);
    assert Expired(p.idle, expired) == [c] + e;
    FirstUpTo(c, e, Surplus(cfg, p));
  }

  lemma KeepFirst(cfg: Config, p: Pool, kept: seq<Conn>, expired: Conn -> bool)
    requires SweepReady(p) && p.idle != [] && !(|p.all| > cfg.minConnections && expired(p.idle[0]))
    ensures Swept(cfg, p, kept, expired) == Swept(cfg, p.(idle := p.idle[1..]), kept + [p.idle[0]], expired)
  {
    var c, rest := p.idle[0], p.idle[1..];
    FirstElement(p.idle);
    var gone := Gone(cfg, p, expired);
    if expired(c) {
      assert gone == [];
    } else {
      assert Expired(p.idle, expired) == Expired(rest, expired);
    }
    assert gone == Gone(cfg, p.(idle := rest), expired);
    GoneAreIdle(cfg, p.(idle := rest), expired);
    assert Without(p.idle, gone) == [c] + Without(rest, gone);
    assert kept + [c] + Without(rest, gone) == kept + ([c] + Without(rest, gone));
  }

  /** A sweep keeps the invariant and never touches a connection that has been handed out. */
  lemma SweepKeeps(cfg: Config, p: Pool, expired: Conn -> bool)
    requires Inv(cfg, p)
    ensures Inv(cfg, Swept(cfg, p, [], expired))
  {
    GoneAreIdle(cfg, p, expired);
    assert [] + Without(p.idle, Gone(cfg, p, expired)) == Without(p.idle, Gone(cfg, p, expired));
    WithoutKeeps(cfg, p, Gone(cfg, p, expired));
  }

  /** Idle connections can leave the pool in any number. */
  lemma WithoutKeeps(cfg: Config, p: Pool, gone: seq<Conn>)
    requires Inv(cfg, p) && NoDuplicates(gone) && Elements(gone) <= Elements(p.idle)
    ensures Inv(cfg, p.(idle := Without(p.idle, gone), all := Without(p.all, gone)))
  {
    WithoutMeans(p.idle, gone);
    WithoutMeans(p.all, gone);
    WithoutLength(p.idle, gone);
    WithoutLength(p.all, gone);
    SameDifference(Elements(p.all), Elements(p.idle), Elements(gone));
  }

  lemma SameDifference(all: set<Conn>, idle: set<Conn>, gone: set<Conn>)
    requires gone <= idle <= all
    ensures all - gone - (idle - gone) == all - idle && idle - gone <= all - gone
  {
  }

  function Missing(cfg: Config, p: Pool): nat {
    if |p.all| < cfg.minConnections then cfg.minConnections - |p.all| else 0
  }

  function Refilled(cfg: Config, p: Pool, results: seq<Conn>): Pool {
    var n := Missing(cfg, p);
    p.(idle := p.idle + UpTo(results, n), all := p.all + UpTo(results, n),
       errors := p.errors + if |results| < n then 1 else 0)
  }

  /** A refill opens what the minimum lacks, or as much as can be opened and then counts one error. */
  lemma {:induction false} RefillAdds(cfg: Config, p: Pool, results: seq<Conn>)
    ensures Refill(cfg, p, results) == Refilled(cfg, p, results)
    decreases |results|
  {
    var n := Missing(cfg, p);
    if n == 0 || results == [] {
      assert UpTo(results, n) == [];
      assert p.idle + [] == p.idle && p.all + [] == p.all;
    } else {
      RefillAdds(cfg, p.(idle := p.idle + [results[0]], all := p.all + [results[0]]), results[1..]);
      RefilledFirst(cfg, p, results);
    }
  }

  lemma RefilledFirst(cfg: Config, p: Pool, results: seq<Conn>)
    requires Missing(cfg, p) > 0 && results != []
    ensures Refilled(cfg, p, results)
         == Refilled(cfg, p.(idle := p.idle + [results[0]], all := p.all + [results[0]]), results[1..])
  {
    var c, added := results[0], UpTo(results[1..], Missing(cfg, p) - 1);
    FirstUpTo(c, results[1..], Missing(cfg, p));
    assert results == [c] + results[1..];
    assert p.idle + [c] + added == p.idle + ([c] + added);
    assert p.all + [c] + added == p.all + ([c] + added);
  }

  /**
   * Cleanup is exact: it drops the earliest expired idle connections, as many as exceed the
   * minimum, keeps the order of the rest, and then opens what the minimum lacks until a failure.
   */
  lemma CleanupExact(cfg: Config, p: Pool, expired: Conn -> bool, results: seq<Conn>)
    requires Inv(cfg, p)
    ensures var q, gone := Cleanup(cfg, p, expired, results), Gone(cfg, p, expired);
            var left := |p.all| - |gone|;
            var added := UpTo(results, if left < cfg.minConnections then cfg.minConnections - left else 0);
            && gone <= Expired(p.idle, expired)
            && |gone| == (if |Expired(p.idle, expired)| <= Surplus(cfg, p) then |Expired(p.idle, expired)|
                          else Surplus(cfg, p))
            && q.idle == Without(p.idle, gone) + added
            && q.all == Without(p.all, gone) + added
            && Elements(gone) !! p.used
  {
    var gone := Gone(cfg, p, expired);
    SweepDrops(cfg, p, [], expired);
    GoneAreIdle(cfg, p, expired);
    WithoutLength(p.all, gone);
    assert [] + Without(p.idle, gone) == Without(p.idle, gone);
    RefillAdds(cfg, Sweep(cfg, p, [], expired), results);
  }

  lemma CleanupKeeps(cfg: Config, p: Pool, expired: Conn -> bool, results: seq<Conn>)
    requires Inv(cfg, p) && AreNew(p.all, results)
    ensures Inv(cfg, Cleanup(cfg, p, expired, results)) && Cleanup(cfg, p, expired, results).used == p.used
  {
    SweepDrops(cfg, p, [], expired);
    SweepKeeps(cfg, p, expired);
    GoneAreIdle(cfg, p, expired);
    WithoutMeans(p.all, Gone(cfg, p, expired));
    RefillKeeps(cfg, Sweep(cfg, p, [], expired), results);
  }

  // ---------- who gets what ----------

  /**
   * A pass of acquire hands out the first idle connection that works, and those in front of it
   * leave the pool; only if there is none, and those handed out leave room, does it open one, and
   * a failure to is counted.
   */
  lemma AcquireExactly(cfg: Config, p: Pool, valid: Conn -> bool, created: Option<Conn>)
    requires Inv(cfg, p)
    ensures var n := Stale(p.idle, valid);
            n < |p.idle| ==>
              Acquire(cfg, p, valid, created)
              == (p.(idle := p.idle[n + 1..], all := Without(p.all, p.idle[..n]),
                     used := p.used + {p.idle[n]}, acquires := p.acquires + 1), Some(p.idle[n]))
    ensures Stale(p.idle, valid) == |p.idle| ==>
              Acquire(cfg, p, valid, created)
              == Opening(cfg, p.(idle := [], all := Without(p.all, p.idle)), |p.used| < cfg.maxConnections, created)
  {
    if Stale(p.idle, valid) < |p.idle| {
      AcquireIdle(cfg, p, valid, created);
    } else {
      AcquireNew(cfg, p, valid, created);
    }
  }

  lemma AcquireIdle(cfg: Config, p: Pool, valid: Conn -> bool, created: Option<Conn>)
    requires Inv(cfg, p) && Stale(p.idle, valid) < |p.idle|
    ensures var n := Stale(p.idle, valid);
            Acquire(cfg, p, valid, created)
            == (p.(idle := p.idle[n + 1..], all := Without(p.all, p.idle[..n]),
                   used := p.used + {p.idle[n]}, acquires := p.acquires + 1), Some(p.idle[n]))
  {
    TakeIdleExact(cfg, p, valid);
    FirstValid(p, valid);
    TakeOrOpen(cfg, p, valid, created);
  }

  lemma FirstValid(p: Pool, valid: Conn -> bool)
    requires Stale(p.idle, valid) < |p.idle|
    ensures var n := Stale(p.idle, valid);
            AfterStale(p, valid)
            == (p.(idle := p.idle[n + 1..], all := Without(p.all, p.idle[..n]),
                   used := p.used + {p.idle[n]}, acquires := p.acquires + 1), Some(p.idle[n]))
  {
  }

  lemma AcquireNew(cfg: Config, p: Pool, valid: Conn -> bool, created: Option<Conn>)
    requires Inv(cfg, p) && Stale(p.idle, valid) == |p.idle|
    ensures Acquire(cfg, p, valid, created)
         == Opening(cfg, p.(idle := [], all := Without(p.all, p.idle)), |p.used| < cfg.maxConnections, created)
  {
    TakeIdleExact(cfg, p, valid);
    TakeOrOpen(cfg, p, valid, created);
    AllStale(cfg, p, valid);
  }

  lemma TakeOrOpen(cfg: Config, p: Pool, valid: Conn -> bool, created: Option<Conn>)
    ensures var (q, got) := TakeIdle(p, valid);
            Acquire(cfg, p, valid, created)
            == if got.Some? then (q, got) else Opening(cfg, q, |q.all| < cfg.maxConnections, created)
  {
  }

  /** What is left to do when no idle connection works. */
  function Opening(cfg: Config, p: Pool, room: bool, created: Option<Conn>): (Pool, Option<Conn>) {
    if !room then (p, None)
    else if created.None? then (p.(errors := p.errors + 1), None)
    else
      var c := created.value;
      (p.(all := p.all + [c], used := p.used + {c}, acquires := p.acquires + 1), Some(c))
  }

  lemma AllStale(cfg: Config, p: Pool, valid: Conn -> bool)
    requires Inv(cfg, p) && Stale(p.idle, valid) == |p.idle|
    ensures AfterStale(p, valid) == (p.(idle := [], all := Without(p.all, p.idle)), None)
    ensures |Without(p.all, p.idle)| == |p.used|
  {
    assert p.idle[..|p.idle|] == p.idle;
    WithoutLength(p.all, p.idle);
  }

  /** try_acquire looks at the first idle connection only: it is handed out if it works, and leaves the pool if not. */
  lemma TryAcquireExactly(cfg: Config, p: Pool, valid: Conn -> bool)
    requires Inv(cfg, p)
    ensures p.idle == [] ==> TryAcquire(p, valid) == (p, None)
    ensures p.idle != [] && valid(p.idle[0]) ==>
              TryAcquire(p, valid)
              == (p.(idle := p.idle[1..], used := p.used + {p.idle[0]}, acquires := p.acquires + 1), Some(p.idle[0]))
    ensures p.idle != [] && !valid(p.idle[0]) ==>
              TryAcquire(p, valid) == (p.(idle := p.idle[1..], all := Without(p.all, [p.idle[0]])), None)
  {
    if p.idle != [] && !valid(p.idle[0]) {
      FrontForgotten(cfg, p);
    }
  }

  lemma FrontForgotten(cfg: Config, p: Pool)
    requires Inv(cfg, p) && p.idle != []
    ensures Forgotten(p.(idle := p.idle[1..]), p.idle[0])
         == p.(idle := p.idle[1..], all := Without(p.all, [p.idle[0]]))
  {
    assert p.idle[0] in Elements(p.idle);
    assert p.used - {p.idle[0]} == p.used;
    EraseIsWithout(p.all, p.idle[0]);
  }

  lemma EraseIsWithout(s: seq<Conn>, c: Conn)
    requires NoDuplicates(s)
    ensures Erase(s, c) == Without(s, [c])
  {
    assert [c] + [] == [c];
    WithoutFirst(s, c, []);
    WithoutNothing(Erase(s, c));
  }

  /** A connection that is given back is idle again exactly if it still works; otherwise it leaves the pool. */
  lemma ReleaseExactly(cfg: Config, p: Pool, c: Conn, valid: bool)
    requires Inv(cfg, p) && c in p.used
    ensures var q := Release(p, c, valid);
            && (c in q.idle <==> valid) && (c in q.all <==> valid)
            && q.idle == (if valid then p.idle + [c] else p.idle)
            && q.all == (if valid then p.all else Without(p.all, [c]))
            && q == p.(idle := q.idle, all := q.all, used := p.used - {c}, releases := p.releases + 1)
  {
    assert c in Elements(p.all) && c !in Elements(p.idle);
    EraseIsWithout(p.all, c);
    EraseMeans(p.all, c);
    assert c !in Elements(Erase(p.all, c));
    assert p.used - {c} - {c} == p.used - {c};
  }

  /** Opening adds the connections that could be opened to the queue and to the list, and counts the others. */
  lemma {:induction false} OpenExactly(p: Pool, outcomes: seq<Option<Conn>>)
    ensures Open(p, outcomes)
         == p.(idle := p.idle + Opened(outcomes), all := p.all + Opened(outcomes),
               errors := p.errors + Failures(outcomes))
    decreases |outcomes|
  {
    if outcomes == [] {
      assert p.idle + [] == p.idle && p.all + [] == p.all;
    } else {
      OpenExactly(OpenOne(p, outcomes[0]), outcomes[1..]);
      if outcomes[0].Some? {
        var c, rest := outcomes[0].value, Opened(outcomes[1..]);
        assert p.idle + [c] + rest == p.idle + ([c] + rest);
        assert p.all + [c] + rest == p.all + ([c] + rest);
      } else {
        assert Opened(outcomes) == Opened(outcomes[1..]);
      }
    }
  }

  function Failures(outcomes: seq<Option<Conn>>): nat {
    if outcomes == [] then 0 else (if outcomes[0].None? then 1 else 0) + Failures(outcomes[1..])
  }

  /** Connections are used in turn: one that is given back waits behind all those already idle. */
  lemma ReturnedServedLast(cfg: Config, p: Pool, c: Conn, valid: Conn -> bool)
    requires Inv(cfg, p) && c in p.used && p.idle != [] && valid(p.idle[0])
    ensures var (q, got) := TryAcquire(Release(p, c, true), valid);
            got == Some(p.idle[0]) && q.idle == p.idle[1..] + [c]
  {
    assert (p.idle + [c])[1..] == p.idle[1..] + [c];
  }

  // ---------- guards ----------

  /** The pool and the guards that hold a connection; an empty guard is not listed. */
  datatype World = World(pool: Pool, guards: map<nat, Conn>)

  datatype Step =
    | Construct(g: nat, valid: Conn -> bool, created: Option<Conn>) // a pass of acquire for a new guard
    | TryConstruct(g: nat, valid: Conn -> bool)                  // try_acquire
    | GiveUp                                                  // a waiting acquire reaches its deadline
    | Drop(g: nat, alive: bool)                               // release, explicit or by the destructor
    | MoveConstruct(to: nat, from: nat)
    | MoveAssign(to: nat, from: nat, alive: bool)
    | HealthCheck(expired: Conn -> bool, results: seq<Conn>)

  ghost predicate Enabled(w: World, step: Step) {
    match step
    case Construct(g, _, created) => g !in w.guards && (created.Some? ==> created.value !in w.pool.all)
    case TryConstruct(g, _) => g !in w.guards
    case MoveConstruct(to, _) => to !in w.guards
    case HealthCheck(_, results) => AreNew(w.pool.all, results)
    case _ => true
  }

  function Held(w: World, g: nat, q: Pool, got: Option<Conn>): World {
    World(q, if got.Some? then w.guards[g := got.value] else w.guards)
  }

  function AfterDrop(w: World, g: nat, valid: bool): World {
    if g in w.guards then World(Release(w.pool, w.guards[g], valid), w.guards - {g}) else w
  }

  function AfterMove(w: World, to: nat, from: nat): World {
    if from in w.guards then w.(guards := (w.guards - {from})[to := w.guards[from]]) else w
  }

  function Next(cfg: Config, w: World, step: Step): World {
    match step
    case Construct(g, valid, created) =>
      var (q, got) := Acquire(cfg, w.pool, valid, created);
      Held(w, g, q, got)
    case TryConstruct(g, valid) =>
      var (q, got) := TryAcquire(w.pool, valid);
      Held(w, g, q, got)
    case GiveUp => w.(pool := TimeOut(w.pool))
    case Drop(g, valid) => AfterDrop(w, g, valid)
    case MoveConstruct(to, from) => AfterMove(w, to, from)
    case MoveAssign(to, from, valid) => if to == from then w else AfterMove(AfterDrop(w, to, valid), to, from)
    case HealthCheck(expired, results) => w.(pool := Cleanup(cfg, w.pool, expired, results))
  }

  /** A new guard holds what it was handed, if anything; an ended one has given back what it held. */
  lemma GuardsExactly(cfg: Config, w: World, g: nat, valid: Conn -> bool, created: Option<Conn>, alive: bool)
    ensures var t, got := Next(cfg, w, Construct(g, valid, created)), Acquire(cfg, w.pool, valid, created).1;
            t.pool == Acquire(cfg, w.pool, valid, created).0
            && t.guards == if got.Some? then w.guards[g := got.value] else w.guards
    ensures var t, got := Next(cfg, w, TryConstruct(g, valid)), TryAcquire(w.pool, valid).1;
            t.pool == TryAcquire(w.pool, valid).0
            && t.guards == if got.Some? then w.guards[g := got.value] else w.guards
    ensures var t := Next(cfg, w, Drop(g, alive));
            if g in w.guards then t == World(Release(w.pool, w.guards[g], alive), w.guards - {g}) else t == w
  {
  }

  /**
   * A moved-to guard holds what the other held, and the other nothing; what an assigned-to guard
   * held before is given back, even if there is nothing to move.
   */
  lemma MovesExactly(cfg: Config, w: World, to: nat, from: nat, alive: bool)
    requires to != from
    ensures var t := Next(cfg, w, MoveConstruct(to, from));
            to !in w.guards ==>
              && t.pool == w.pool && from !in t.guards
              && (to in t.guards <==> from in w.guards) && (to in t.guards ==> t.guards[to] == w.guards[from])
    ensures var t := Next(cfg, w, MoveAssign(to, from, alive));
            && t.pool == (if to in w.guards then Release(w.pool, w.guards[to], alive) else w.pool)
            && from !in t.guards
            && (to in t.guards <==> from in w.guards) && (to in t.guards ==> t.guards[to] == w.guards[from])
            && (forall g :: g != to && g != from ==>
                              (g in t.guards <==> g in w.guards) && (g in t.guards ==> t.guards[g] == w.guards[g]))
  {
  }

  /** Assigning a guard to itself changes nothing. */
  lemma SelfMove(cfg: Config, w: World, g: nat, alive: bool)
    ensures Next(cfg, w, MoveAssign(g, g, alive)) == w
  {
  }

  ghost predicate Injective(m: map<nat, Conn>) {
    forall g, h :: g in m && h in m && m[g] == m[h] ==> g == h
  }

  /** Guards hold different connections, and together exactly those that are in use. */
  ghost predicate WorldInv(cfg: Config, w: World) {
    Inv(cfg, w.pool) && Injective(w.guards) && w.guards.Values == w.pool.used
  }

  lemma GuardAdded(m: map<nat, Conn>, g: nat, c: Conn)
    requires Injective(m) && g !in m && c !in m.Values
    ensures Injective(m[g := c]) && m[g := c].Values == m.Values + {c}
  {
    var r := m[g := c];
    assert r[g] == c;
    forall d | d in m.Values ensures d in r.Values {
      var h :| h in m && m[h] == d;
      assert r[h] == d;
    }
    assert forall h :: h in r && h != g ==> m[h] in m.Values;
  }

  lemma GuardRemoved(m: map<nat, Conn>, g: nat)
    requires Injective(m) && g in m
    ensures Injective(m - {g}) && (m - {g}).Values == m.Values - {m[g]}
  {
    var r := m - {g};
    forall d | d in m.Values - {m[g]} ensures d in r.Values {
      var h :| h in m && m[h] == d;
      assert h in r && r[h] == d;
    }
    assert forall h :: h in r ==> m[h] in m.Values;
  }

  lemma HeldKeeps(cfg: Config, w: World, g: nat, q: Pool, got: Option<Conn>)
    requires WorldInv(cfg, w) && g !in w.guards && Inv(cfg, q)
    requires got.Some? ==> got.value !in w.pool.used && q.used == w.pool.used + {got.value}
    requires got.None? ==> q.used == w.pool.used
    ensures WorldInv(cfg, Held(w, g, q, got))
  {
    if got.Some? {
      GuardAdded(w.guards, g, got.value);
    }
  }

  lemma DropKeeps(cfg: Config, w: World, g: nat, valid: bool)
    requires WorldInv(cfg, w)
    ensures WorldInv(cfg, AfterDrop(w, g, valid)) && g !in AfterDrop(w, g, valid).guards
  {
    if g in w.guards {
      assert w.guards[g] in w.guards.Values;
      ReleaseKeeps(cfg, w.pool, w.guards[g], valid);
      GuardRemoved(w.guards, g);
    }
  }

  lemma MoveKeeps(cfg: Config, w: World, to: nat, from: nat)
    requires WorldInv(cfg, w) && to !in w.guards
    ensures WorldInv(cfg, AfterMove(w, to, from))
  {
    if from in w.guards {
      var c := w.guards[from];
      assert c in w.guards.Values;
      GuardRemoved(w.guards, from);
      GuardAdded(w.guards - {from}, to, c);
      assert w.guards.Values - {c} + {c} == w.guards.Values;
    }
  }

  lemma StepKeeps(cfg: Config, w: World, step: Step)
    requires WorldInv(cfg, w) && Enabled(w, step)
    ensures WorldInv(cfg, Next(cfg, w, step))
  {
    match step
    case Construct(g, valid, created) =>
      AcquireKeeps(cfg, w.pool, valid, created);
      var (q, got) := Acquire(cfg, w.pool, valid, created);
      HeldKeeps(cfg, w, g, q, got);
    case TryConstruct(g, valid) =>
      TryAcquireKeeps(cfg, w.pool, valid);
      var (q, got) := TryAcquire(w.pool, valid);
      HeldKeeps(cfg, w, g, q, got);
    case GiveUp =>
    case Drop(g, valid) => DropKeeps(cfg, w, g, valid);
    case MoveConstruct(to, from) => MoveKeeps(cfg, w, to, from);
    case MoveAssign(to, from, valid) =>
      if to != from {
        DropKeeps(cfg, w, to, valid);
        MoveKeeps(cfg, AfterDrop(w, to, valid), to, from);
      }
    case HealthCheck(expired, results) => CleanupKeeps(cfg, w.pool, expired, results);
  }

  ghost predicate IsRun(cfg: Config, w: World, steps: seq<Step>, t: World)
    decreases |steps|
  {
    if steps == [] then w == t
    else Enabled(w, steps[0]) && IsRun(cfg, Next(cfg, w, steps[0]), steps[1..], t)
  }

  lemma {:induction false} RunKeeps(cfg: Config, w: World, steps: seq<Step>, t: World)
    requires WorldInv(cfg, w) && IsRun(cfg, w, steps, t)
    ensures WorldInv(cfg, t)
    decreases |steps|
  {
    if steps != [] {
      StepKeeps(cfg, w, steps[0]);
      RunKeeps(cfg, Next(cfg, w, steps[0]), steps[1..], t);
    }
  }

  function Empty(): Pool {
    Pool([], [], {}, 0, 0, 0, 0)
  }

  /**
   * Conservation over every run before shutdown: from a freshly initialised pool, whatever guards
   * are constructed, moved and dropped in whatever order, the counters match what is in use and
   * held, the bound is kept, and a connection held by a guard is never idle.
   */
  lemma PoolConserves(cfg: Config, outcomes: seq<Option<Conn>>, steps: seq<Step>, t: World)
    requires |outcomes| == cfg.minConnections && AreNew([], Opened(outcomes))
    requires IsRun(cfg, World(Open(Empty(), outcomes), map[]), steps, t)
    ensures Inv(cfg, t.pool)
    ensures cfg.minConnections <= cfg.maxConnections ==> |t.pool.all| <= cfg.maxConnections
    ensures t.pool.acquires - t.pool.releases == |t.pool.all| - |t.pool.idle| == |t.pool.used| == |t.guards|
    ensures forall g :: g in t.guards ==> t.guards[g] in t.pool.all && t.guards[g] !in t.pool.idle
  {
    var start := World(Open(Empty(), outcomes), map[]);
    OpenKeeps(cfg, Empty(), outcomes);
    RunKeeps(cfg, start, steps, t);
    InjectiveSize(t.guards);
    forall g | g in t.guards
      ensures t.guards[g] in t.pool.all && t.guards[g] !in t.pool.idle
    {
      assert t.guards[g] in t.guards.Values;
    }
  }

  lemma {:induction false} InjectiveSize(m: map<nat, Conn>)
    requires Injective(m)
    ensures |m.Values| == |m|
    decreases |m|
  {
    if m == map[] {
      assert m.Values == {};
    } else {
      var g :| g in m;
      GuardRemoved(m, g);
      InjectiveSize(m - {g});
      assert m[g] in m.Values;
      assert m.Keys == (m - {g}).Keys + {g};
    }
  }
}
