/** What becomes of every call, and what a worker takes: the steps of the pool, exactly. */
module ThreadPoolSteps {
  import opened ThreadPool
  import opened ThreadPoolSafety
  import opened ThreadPoolProgress

  // ---------- callers ----------

  /** A call is under way exactly if it saw the pool running, with a task of its own. */
  lemma CallExactly(cfg: Config, s: State, p: nat, priority: nat, trying: bool)
    requires Enabled(s, Call(p, priority, trying))
    ensures var t := Next(cfg, s, Call(p, priority, trying));
            && (s.stop != Running ==> t == s)
            && (s.stop == Running ==>
                  && t.nextId == s.nextId + 1
                  && t.producers == s.producers[p := Submitting(Task(s.nextId, priority), trying)]
                  && t == s.(nextId := t.nextId, producers := t.producers))
  {
  }

  /** The task of caller `p` is accepted: it is queued and counted, and the caller is done. */
  ghost predicate AcceptsTask(cfg: Config, s: State, p: nat, mayGrow: bool, woken: nat, t: State)
    requires p < |s.producers| && !s.producers[p].Idle?
  {
    var one := multiset{s.producers[p].task};
    && t.queue == s.queue + one && t.Accepted() == s.Accepted() + one && t.total == s.total + 1
    && (if s.stop == Running then t.early == s.early + one else t.late == s.late + one)
    && t.producers == s.producers[p := Idle]
    && GrowsAndWakes(cfg, s, mayGrow, woken, t.workers)
    && t == s.(queue := t.queue, early := t.early, late := t.late, total := t.total, producers := t.producers,
               workers := t.workers, orphans := t.orphans)
  }

  /**
   * One worker is added if the caller may add one, all are active and there may be more; and one
   * sleeper is woken if there is any. The others go on as they were.
   */
  ghost predicate GrowsAndWakes(cfg: Config, s: State, mayGrow: bool, woken: nat, ws: seq<Worker>) {
    var n := |s.workers|;
    && |ws| == (if mayGrow && s.active >= n && n < cfg.maxThreads then n + 1 else n)
    && (forall w :: n <= w < |ws| ==> ws[w] == Ready)
    && (forall w :: 0 <= w < n && w != woken ==> ws[w] == s.workers[w])
    && (woken < n ==> ws[woken] == if s.workers[woken].Asleep? then Woken else s.workers[woken])
    && ((exists w :: w in s.workers && w.Asleep?) ==> woken < n && s.workers[woken].Asleep?)
  }

  lemma PushExactly(cfg: Config, s: State, p: nat, mayGrow: bool, woken: nat)
    requires p < |s.producers| && !s.producers[p].Idle? && ChoosesSleeper(s.workers, woken)
    ensures AcceptsTask(cfg, s, p, mayGrow, woken,
                        Pushed(cfg, WithProducer(s, p, Idle), s.producers[p].task, mayGrow, woken))
  {
    var one := multiset{s.producers[p].task};
    assert s.early + one + s.late == s.early + s.late + one;
    assert s.early + (s.late + one) == s.early + s.late + one;
  }

  /**
   * A submission: with room it is accepted; in a full queue it is rejected and counted if it only
   * tries or the policy discards, turned away if the pool is stopping, and waits otherwise.
   */
  lemma SubmitExactly(cfg: Config, s: State, p: nat, woken: nat)
    requires Enabled(s, Submit(p, woken))
    ensures var t, trying := Next(cfg, s, Submit(p, woken)), s.producers[p].trying;
            && (|s.queue| < cfg.maxQueueSize ==> AcceptsTask(cfg, s, p, !trying, woken, t))
            && (|s.queue| >= cfg.maxQueueSize ==>
                  if trying || cfg.policy == Discard then
                    t == s.(producers := s.producers[p := Idle], rejected := s.rejected + 1)
                  else if s.stop != Running then
                    t == s.(producers := s.producers[p := Idle], turnedAway := s.turnedAway + 1)
                  else t == s.(producers := s.producers[p := Blocked(s.producers[p].task)]))
  {
    PushExactly(cfg, s, p, !s.producers[p].trying, woken);
  }

  /**
   * A caller that has waited: turned away if the pool is stopping, accepted if there is room, and
   * waiting again otherwise.
   */
  lemma RecheckExactly(cfg: Config, s: State, p: nat, woken: nat)
    requires Enabled(s, Recheck(p, woken))
    ensures var t := Next(cfg, s, Recheck(p, woken));
            if s.stop != Running then
              t == s.(producers := s.producers[p := Idle], turnedAway := s.turnedAway + 1)
            else if |s.queue| < cfg.maxQueueSize then AcceptsTask(cfg, s, p, true, woken, t)
            else t == s.(producers := s.producers[p := Blocked(s.producers[p].task)])
  {
    PushExactly(cfg, s, p, true, woken);
  }

  // ---------- workers ----------

  /**
   * A worker takes a task that no queued task outranks; from an empty queue it goes to sleep, or
   * exits if the pool is stopping.
   */
  lemma TakeExactly(cfg: Config, s: State, w: nat, task: Task)
    requires Enabled(s, Take(w, task))
    ensures var t := Next(cfg, s, Take(w, task));
            if s.queue == multiset{} then
              t == s.(workers := s.workers[w := if s.stop == Running then Asleep else Exited])
            else
              && task in s.queue && (forall other :: other in s.queue ==> other.priority <= task.priority)
              && t == s.(workers := s.workers[w := Holding(task)], queue := s.queue - multiset{task},
                         active := s.active + 1)
  {
  }

  /** In any state somebody can take a task that is queued, as soon as a worker looks. */
  lemma SomeTaskIsTaken(s: State, w: nat)
    requires w < |s.workers| && (s.workers[w].Ready? || s.workers[w].Woken?) && s.queue != multiset{}
    ensures exists task :: task in s.queue && Enabled(s, Take(w, task))
  {
    var task := MostUrgent(s.queue);
    assert Enabled(s, Take(w, task));
  }

  // ---------- the account of all calls ----------

  /** How many callers have neither been accepted nor refused yet. */
  function UnderWay(ps: seq<Producer>): nat {
    if ps == [] then 0 else One(!ps[0].Idle?) + UnderWay(ps[1..])
  }

  lemma {:induction false} UnderWayChanged(ps: seq<Producer>, p: nat, x: Producer)
    requires p < |ps|
    ensures UnderWay(ps[p := x]) + One(!ps[p].Idle?) == UnderWay(ps) + One(!x.Idle?)
  {
    var r := ps[p := x];
    if p == 0 {
      assert r[1..] == ps[1..];
    } else {
      assert r[1..] == ps[1..][p - 1 := x];
      UnderWayChanged(ps[1..], p - 1, x);
    }
  }

  lemma {:induction false} UnderWayWoken(ps: seq<Producer>)
    ensures UnderWay(AllProducersWoken(ps)) == UnderWay(ps)
  {
    if ps != [] {
      assert AllProducersWoken(ps)[1..] == AllProducersWoken(ps[1..]);
      UnderWayWoken(ps[1..]);
    }
  }

  /** Every call that saw the pool running is accepted, rejected, turned away, or still under way. */
  ghost predicate Ledger(s: State) {
    && s.nextId == s.total + s.rejected + s.turnedAway + UnderWay(s.producers)
    && |s.Accepted()| == s.total
    && (s.turnedAway > 0 ==> s.Stopped())
  }

  lemma AcceptedInLedger(cfg: Config, s: State, p: nat, mayGrow: bool, woken: nat, t: State)
    requires Ledger(s) && p < |s.producers| && !s.producers[p].Idle?
    requires AcceptsTask(cfg, s, p, mayGrow, woken, t)
    ensures Ledger(t)
  {
    UnderWayChanged(s.producers, p, Idle);
  }

  lemma CallerInLedger(cfg: Config, s: State, step: Step)
    requires Ledger(s) && Enabled(s, step) && (step.Submit? || step.Recheck?)
    ensures Ledger(Next(cfg, s, step))
  {
    var t := Next(cfg, s, step);
    if step.Submit? {
      SubmitExactly(cfg, s, step.p, step.woken);
    } else {
      RecheckExactly(cfg, s, step.p, step.woken);
    }
    UnderWayChanged(s.producers, step.p, t.producers[step.p]);
    if t.total != s.total {
      AcceptedInLedger(cfg, s, step.p, if step.Submit? then !s.producers[step.p].trying else true, step.woken, t);
    }
  }

  /** The account stays in order if nobody is accepted, refused or gone. */
  lemma SameLedger(s: State, t: State)
    requires Ledger(s) && UnderWay(t.producers) == UnderWay(s.producers)
    requires t.nextId == s.nextId && t.total == s.total && t.rejected == s.rejected && t.turnedAway == s.turnedAway
    requires t.early == s.early && t.late == s.late && (s.Stopped() ==> t.Stopped())
    ensures Ledger(t)
  {
  }

  lemma AdvanceInLedger(s: State, w: nat)
    requires Ledger(s) && Enabled(s, Advance(w))
    ensures Ledger(AfterAdvance(s, w))
  {
    UnderWayWoken(s.producers);
    SameLedger(s, AfterAdvance(s, w));
  }

  lemma StopInLedger(s: State)
    requires Ledger(s) && Enabled(s, Stop)
    ensures Ledger(AfterStop(s))
  {
    UnderWayWoken(s.producers);
    SameLedger(s, AfterStop(s));
  }

  lemma CallInLedger(cfg: Config, s: State, step: Step)
    requires Ledger(s) && Enabled(s, step) && (step.Call? || step.WakeProducer?)
    ensures Ledger(Next(cfg, s, step))
  {
    UnderWayChanged(s.producers, step.p, Next(cfg, s, step).producers[step.p]);
  }

  lemma StepInLedger(cfg: Config, s: State, step: Step)
    requires Ledger(s) && Enabled(s, step)
    ensures Ledger(Next(cfg, s, step))
  {
    match step
    case Submit(_, _) => CallerInLedger(cfg, s, step);
    case Recheck(_, _) => CallerInLedger(cfg, s, step);
    case Call(_, _, _) => CallInLedger(cfg, s, step);
    case WakeProducer(_) => CallInLedger(cfg, s, step);
    case Advance(w) => AdvanceInLedger(s, w);
    case Stop => StopInLedger(s);
    case _ =>
  }

  lemma {:induction false} RunInLedger(cfg: Config, s: State, steps: seq<Step>, t: State)
    requires Ledger(s) && IsRun(cfg, s, steps, t)
    ensures Ledger(t)
    decreases |steps|
  {
    if steps != [] {
      StepInLedger(cfg, s, steps[0]);
      RunInLedger(cfg, Next(cfg, s, steps[0]), steps[1..], t);
    }
  }

  lemma {:induction false} NobodyUnderWay(ps: seq<Producer>)
    requires forall i :: 0 <= i < |ps| ==> ps[i].Idle?
    ensures UnderWay(ps) == 0
  {
    if ps != [] {
      NobodyUnderWay(ps[1..]);
    }
  }

  /**
   * In every reachable state the calls that saw the pool running are those whose task was accepted,
   * those rejected, those turned away, which takes a stop, and those still under way.
   */
  lemma EveryCallIsAccountedFor(cfg: Config, s: State)
    requires Reachable(cfg, s)
    ensures s.nextId == |s.Accepted()| + s.rejected + s.turnedAway + UnderWay(s.producers)
    ensures s.total == |s.Accepted()|
    ensures s.turnedAway > 0 ==> s.stop != Running
  {
    var callers, steps :| IsRun(cfg, Initial(cfg, callers), steps, s);
    NobodyUnderWay(Initial(cfg, callers).producers);
    RunInLedger(cfg, Initial(cfg, callers), steps, s);
  }

  /** Where every run ends, each call that saw a pool running that is not stopping was accepted or rejected. */
  lemma EveryCallIsDecided(cfg: Config, s: State)
    requires Reachable(cfg, s) && AtRest(s) && cfg.minThreads > 0 && cfg.maxQueueSize > 0
    ensures s.nextId == |s.Accepted()| + s.rejected + s.turnedAway
    ensures s.stop == Running ==> s.nextId == |s.Accepted()| + s.rejected
  {
    EveryCallIsAccountedFor(cfg, s);
    PoolAtRest(cfg, s);
    NobodyUnderWay(s.producers);
  }
}
