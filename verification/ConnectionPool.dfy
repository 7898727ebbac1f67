/** The connection pool in place: the queue, the list, the marks and the loops over them. */
module ConnectionPool {
  import opened Collections
  import opened DatabasePool
  import opened Clock

  /** The times of last use after these connections have been touched. */
  function Touched(lastUsed: map<Conn, int>, conns: seq<Conn>, now: int): map<Conn, int>
    decreases |conns|
  {
    if conns == [] then lastUsed else Touched(lastUsed[conns[0] := now], conns[1..], now)
  }

  function IdleTooLong(cfg: Config, lastUsed: map<Conn, int>, now: int): Conn -> bool {
    (c: Conn) => c in lastUsed && WholeSeconds(now - lastUsed[c]) > cfg.maxIdleSeconds
  }

  /** Parameters called `created` stand for the connections that connecting yields, None for a failure. */
  class ConnectionPool {
    const cfg: Config
    var idle: seq<Conn>
    var all: seq<Conn>
    var used: set<Conn>             // the in-use marks
    var lastUsed: map<Conn, int>    // nanoseconds
    var acquires: nat
    var releases: nat
    var timeouts: nat
    var errors: nat
    var initialized: bool
    var stopped: bool

    function State(): Pool
      reads this
    {
      Pool(idle, all, used, acquires, releases, timeouts, errors)
    }

    /** Every connection of the pool has a time of last use. */
    ghost predicate Stamped()
      reads this
    {
      forall c :: c in all ==> c in lastUsed
    }

    constructor (cfg: Config)
      ensures this.cfg == cfg && !stopped && !initialized && State() == Empty() && Stamped()
    {
      this.cfg := cfg;
      idle, all, used, lastUsed, acquires, releases, timeouts, errors := [], [], {}, map[], 0, 0, 0, 0;
      stopped, initialized := false, false;
    }

    /** Erases a connection from the list of all connections, if it is there. */
    method Forget(c: Conn)
      modifies this`all, this`used
      ensures State() == Forgotten(old(State()), c)
      ensures forall d :: d in all ==> d in old(all)
    {
      var i := 0;
      while i < |all| && all[i] != c
        invariant i <= |all| && c !in all[..i]
      {
        i := i + 1;
      }
      EraseAt(all, i, c);
      if i < |all| {
        all := all[..i] + all[i + 1..];
      }
      used := used - {c};
    }

    /** Marks a connection as in use and counts the acquire. */
    method HandOut(c: Conn, now: int)
      modifies this`acquires, this`used, this`lastUsed
      ensures State() == old(State()).(used := old(used) + {c}, acquires := old(acquires) + 1)
      ensures lastUsed == old(lastUsed)[c := now]
    {
      used := used + {c};
      lastUsed := lastUsed[c := now];
      acquires := acquires + 1;
    }

    /** One pass of acquire over the idle queue, then an attempt to open a connection if there is room. */
    method AcquirePass(valid: Conn -> bool, created: Option<Conn>, now: int) returns (got: Option<Conn>)
      modifies this
      ensures old(Stamped()) ==> Stamped()
      ensures stopped == old(stopped)
      ensures (State(), got)
           == if stopped then (old(State()), None) else Acquire(cfg, old(State()), valid, created)
      ensures lastUsed == if got.Some? then old(lastUsed)[got.value := now] else old(lastUsed)
    {
      if stopped {
        return None;
      }
      while idle != []
        invariant TakeIdle(State(), valid) == TakeIdle(old(State()), valid) && stopped == old(stopped)
        invariant lastUsed == old(lastUsed) && forall d :: d in all ==> d in old(all)
        decreases |idle|
      {
        var c := idle[0];
        idle := idle[1..];
        if valid(c) {
          HandOut(c, now);
          return Some(c);
        }
        Forget(c);
      }
      if |all| < cfg.maxConnections {
        if created.Some? {
          all := all + [created.value];
          HandOut(created.value, now);
          return created;
        }
        errors := errors + 1;
      }
      return None;
    }

    method TryAcquireNow(valid: Conn -> bool, now: int) returns (got: Option<Conn>)
      modifies this
      ensures old(Stamped()) ==> Stamped()
      ensures stopped == old(stopped)
      ensures (State(), got) == if stopped then (old(State()), None) else TryAcquire(old(State()), valid)
      ensures lastUsed == if got.Some? then old(lastUsed)[got.value := now] else old(lastUsed)
    {
      if stopped || idle == [] {
        return None;
      }
      var c := idle[0];
      idle := idle[1..];
      if valid(c) {
        HandOut(c, now);
        return Some(c);
      }
      Forget(c);
      return None;
    }

    /** A waiting acquire that reached its deadline. */
    method GiveUpWaiting()
      modifies this`timeouts
      ensures State() == TimeOut(old(State())) && timeouts == old(timeouts) + 1
    {
      timeouts := timeouts + 1;
    }

    /** Takes a connection back: into the queue if it still works, out of the pool otherwise. */
    method Return(c: Option<Conn>, valid: bool, now: int)
      modifies this
      ensures old(Stamped()) ==> Stamped()
      ensures stopped == old(stopped)
      ensures State() == if c.None? || stopped then old(State()) else Release(old(State()), c.value, valid)
      ensures lastUsed == if c.None? || stopped then old(lastUsed) else old(lastUsed)[c.value := now]
    {
      if c.None? || stopped {
        return;
      }
      used := used - {c.value};
      lastUsed := lastUsed[c.value := now];
      if valid {
        idle := idle + [c.value];
      } else {
        Forget(c.value);
      }
      releases := releases + 1;
    }

    /** A connection just opened goes to the back of the queue and of the list. */
    method AddIdle(c: Conn, now: int)
      modifies this`idle, this`all, this`lastUsed
      ensures State() == OpenOne(old(State()), Some(c)) && lastUsed == old(lastUsed)[c := now]
      ensures old(Stamped()) ==> Stamped()
    {
      lastUsed := lastUsed[c := now];
      idle := idle + [c];
      all := all + [c];
    }

    /** Opens the minimum number of connections; a failure is counted and the next one tried. */
    method Init(created: seq<Option<Conn>>, now: int) returns (ok: bool)
      requires |created| == cfg.minConnections
      modifies this
      ensures old(Stamped()) ==> Stamped()
      ensures State() == if old(initialized) then old(State()) else Open(old(State()), created)
      ensures ok == initialized == (old(initialized) || all != []) && stopped == old(stopped)
      ensures lastUsed == if old(initialized) then old(lastUsed) else Touched(old(lastUsed), Opened(created), now)
    {
      if initialized {
        return true;
      }
      var i := 0;
      while i < cfg.minConnections
        invariant i <= |created| && Open(State(), created[i..]) == Open(old(State()), created)
        invariant stopped == old(stopped) && !initialized && (old(Stamped()) ==> Stamped())
        invariant Touched(lastUsed, Opened(created[i..]), now) == Touched(old(lastUsed), Opened(created), now)
      {
        assert created[i..][0] == created[i] && created[i..][1..] == created[i + 1..];
        OpenedStep(created[i..]);
        match created[i] {
          case None =>
            errors := errors + 1;
          case Some(c) =>
            AddIdle(c, now);
        }
        i := i + 1;
      }
      if all == [] {
        return false;
      }
      initialized := true;
      ok := true;
    }

    /** cleanup_idle_connections: sweeps the queue, then opens what the minimum lacks. */
    method CleanupIdle(created: seq<Conn>, now: int)
      modifies this
      ensures old(Stamped()) ==> Stamped()
      ensures stopped == old(stopped)
      ensures State() == if stopped then old(State())
                         else Cleanup(cfg, old(State()), IdleTooLong(cfg, old(lastUsed), now), created)
      ensures !stopped ==>
                var swept := Sweep(cfg, old(State()), [], IdleTooLong(cfg, old(lastUsed), now));
                lastUsed == Touched(old(lastUsed), UpTo(created, Missing(cfg, swept)), now)
    {
      if stopped {
        return;
      }
      SweepIdle(now);
      RefillFrom(created, now);
    }

    method SweepIdle(now: int)
      modifies this`idle, this`all, this`used
      ensures State() == Sweep(cfg, old(State()), [], IdleTooLong(cfg, lastUsed, now))
      ensures forall d :: d in all ==> d in old(all)
    {
      ghost var expired := IdleTooLong(cfg, lastUsed, now);
      var kept := [];
      while idle != []
        invariant Sweep(cfg, State(), kept, expired) == Sweep(cfg, old(State()), [], expired)
        invariant forall d :: d in all ==> d in old(all)
        decreases |idle|
      {
        var c := idle[0];
        idle := idle[1..];
        if |all| > cfg.minConnections && c in lastUsed && WholeSeconds(now - lastUsed[c]) > cfg.maxIdleSeconds {
          Forget(c);
        } else {
          kept := kept + [c];
        }
      }
      idle := kept;
    }

    method RefillFrom(created: seq<Conn>, now: int)
      modifies this`idle, this`all, this`errors, this`lastUsed
      ensures State() == Refill(cfg, old(State()), created)
      ensures lastUsed == Touched(old(lastUsed), UpTo(created, Missing(cfg, old(State()))), now)
      ensures old(Stamped()) ==> Stamped()
    {
      var i := 0;
      while |all| < cfg.minConnections
        invariant i <= |created| && Refill(cfg, State(), created[i..]) == Refill(cfg, old(State()), created)
        invariant old(Stamped()) ==> Stamped()
        invariant Touched(lastUsed, UpTo(created[i..], Missing(cfg, State())), now)
               == Touched(old(lastUsed), UpTo(created, Missing(cfg, old(State()))), now)
        decreases |created| - i
      {
        if i == |created| {
          errors := errors + 1;
          return;
        }
        assert created[i..][0] == created[i] && created[i..][1..] == created[i + 1..];
        RefillStep(cfg, State(), created[i..], lastUsed, now);
        AddIdle(created[i], now);
        i := i + 1;
      }
    }

    /** used_size: counts the connections marked in use. */
    method UsedSize() returns (n: nat)
      ensures Inv(cfg, State()) ==> n == |all| - |idle| == |used|
    {
      n := 0;
      for i := 0 to |all|
        invariant n == Marked(all[..i], used)
      {
        MarkedLast(all[..i], all[i], used);
        assert all[..i + 1] == all[..i] + [all[i]];
        if all[i] in used {
          n := n + 1;
        }
      }
      assert all[..|all|] == all;
      if Inv(cfg, State()) {
        MarkedAll(all, used);
        assert Elements(all) * used == used;
      }
    }

    /** Clears the pool for good; connections still handed out are simply dropped when returned. */
    method Shutdown()
      modifies this
      ensures old(Stamped()) ==> Stamped()
      ensures stopped
      ensures State() == if old(stopped) then old(State()) else old(State()).(idle := [], all := [], used := {})
    {
      if stopped {
        return;
      }
      stopped := true;
      idle, all, used := [], [], {};
      initialized := false;
    }
  }

  lemma OpenedStep(outcomes: seq<Option<Conn>>)
    requires outcomes != []
    ensures Opened(outcomes) == (if outcomes[0].Some? then [outcomes[0].value] else []) + Opened(outcomes[1..])
    ensures outcomes[0].Some? ==> Opened(outcomes)[1..] == Opened(outcomes[1..])
    ensures outcomes[0].None? ==> Opened(outcomes) == Opened(outcomes[1..])
  {
  }

  lemma RefillStep(cfg: Config, p: Pool, results: seq<Conn>, lastUsed: map<Conn, int>, now: int)
    requires |p.all| < cfg.minConnections && results != []
    ensures var q := OpenOne(p, Some(results[0]));
            && Refill(cfg, p, results) == Refill(cfg, q, results[1..])
            && Touched(lastUsed, UpTo(results, Missing(cfg, p)), now)
               == Touched(lastUsed[results[0] := now], UpTo(results[1..], Missing(cfg, q)), now)
  {
    var n, c, rest := Missing(cfg, p), results[0], results[1..];
    assert results == [c] + rest;
    FirstUpTo(c, rest, n);
    assert ([c] + UpTo(rest, n - 1))[1..] == UpTo(rest, n - 1);
  }

  /** An idle connection has expired once it has been idle for a second more than the limit. */
  lemma ExpiredExactly(cfg: Config, lastUsed: map<Conn, int>, now: int, c: Conn)
    requires c in lastUsed
    ensures IdleTooLong(cfg, lastUsed, now)(c) <==> now - lastUsed[c] >= (cfg.maxIdleSeconds + 1) * 1_000_000_000
  {
    MoreThanSeconds(now - lastUsed[c], cfg.maxIdleSeconds);
  }

  /** Touching is what it says: these connections have the new time, the others theirs. */
  lemma {:induction false} TouchedMeans(lastUsed: map<Conn, int>, conns: seq<Conn>, now: int)
    ensures var after := Touched(lastUsed, conns, now);
            && after.Keys == lastUsed.Keys + Elements(conns)
            && forall c :: c in after ==> after[c] == if c in conns then now else lastUsed[c]
    decreases |conns|
  {
    if conns != [] {
      TouchedMeans(lastUsed[conns[0] := now], conns[1..], now);
      FirstElement(conns);
    }
  }

  function Marked(s: seq<Conn>, used: set<Conn>): nat {
    if s == [] then 0 else (if s[0] in used then 1 else 0) + Marked(s[1..], used)
  }

  lemma {:induction false} MarkedLast(s: seq<Conn>, c: Conn, used: set<Conn>)
    ensures Marked(s + [c], used) == Marked(s, used) + (if c in used then 1 else 0)
  {
    if s == [] {
      assert s + [c] == [c] && [c][1..] == [];
    } else {
      assert (s + [c])[1..] == s[1..] + [c];
      MarkedLast(s[1..], c, used);
    }
  }

  lemma {:induction false} MarkedAll(s: seq<Conn>, used: set<Conn>)
    requires NoDuplicates(s)
    ensures Marked(s, used) == |Elements(s) * used|
  {
    if s != [] {
      FirstElement(s);
      MarkedAll(s[1..], used);
      var rest := Elements(s[1..]) * used;
      assert s[0] !in rest;
      if s[0] in used {
        assert Elements(s) * used == rest + {s[0]};
      } else {
        assert Elements(s) * used == rest;
      }
    } else {
      assert Elements(s) * used == {};
    }
  }

  lemma {:induction false} EraseAt(s: seq<Conn>, i: nat, c: Conn)
    requires i <= |s| && c !in s[..i] && (i < |s| ==> s[i] == c)
    ensures Erase(s, c) == if i < |s| then s[..i] + s[i + 1..] else s
  {
    if s != [] && i > 0 {
      assert s[0] == s[..i][0];
      assert forall x :: x in s[1..][..i - 1] ==> x in s[..i];
      EraseAt(s[1..], i - 1, c);
    }
  }
}
