/**
 * The pool comes to rest: without new calls and unprompted wakeups every run ends, and where it
 * ends nobody waits for a wakeup that has been lost.
 */
module ThreadPoolProgress {
  import opened ThreadPool
  import opened ThreadPoolSafety

  /** Steps that are somebody's own next action, other than a new call. */
  predicate Works(step: Step) {
    !step.Call? && !step.WakeProducer? && !step.WakeWorker?
  }

  // ---------- every run ends ----------

  /** An upper bound on what a worker will still do and set off, with `n` producers to notify. */
  function WorkerWork(w: Worker, n: nat): nat {
    match w
    case Ready => 1
    case Asleep => 0
    case Woken => 1
    case Holding(_) => n + 5
    case Ran => n + 4
    case Inactive => n + 3
    case Counted => n + 2
    case Exited => 0
  }

  function WorkersWork(ws: seq<Worker>, n: nat): nat {
    if ws == [] then 0 else WorkerWork(ws[0], n) + WorkersWork(ws[1..], n)
  }

  /** A producer that pushes sets off a task, a wakeup, and perhaps a new worker. */
  function ProducerWork(p: Producer, n: nat): nat {
    match p
    case Idle => 0
    case Submitting(_, _) => n + 9
    case Blocked(_) => n + 8
    case Unblocked(_) => n + 9
  }

  function ProducersWork(ps: seq<Producer>, n: nat): nat {
    if ps == [] then 0 else ProducerWork(ps[0], n) + ProducersWork(ps[1..], n)
  }

  function QueueWork(size: nat, n: nat): nat {
    if size == 0 then 0 else QueueWork(size - 1, n) + n + 5
  }

  function StopWork(stop: StopPhase, n: nat): nat {
    match stop
    case Running => n + 5
    case FlagSet => n + 4
    case WorkersNotified => n + 3
    case ProducersNotified => 2
    case Joined => 1
    case Cleared => 0
  }

  /** Until stop has notified them, each worker may be woken once more by it. */
  function WakeWork(stop: StopPhase, workers: nat): nat {
    if stop == Running || stop == FlagSet then workers else 0
  }

  function Work(s: State): nat {
    var n := |s.producers|;
    QueueWork(|s.queue|, n) + WorkersWork(s.workers, n) + ProducersWork(s.producers, n)
    + StopWork(s.stop, n) + WakeWork(s.stop, |s.workers|)
  }

  lemma {:induction false} WorkerWorkChanged(ws: seq<Worker>, w: nat, x: Worker, n: nat)
    requires w < |ws|
    ensures WorkersWork(ws[w := x], n) + WorkerWork(ws[w], n) == WorkersWork(ws, n) + WorkerWork(x, n)
  {
    var r := ws[w := x];
    if w == 0 {
      assert r[1..] == ws[1..];
    } else {
      assert r[1..] == ws[1..][w - 1 := x];
      WorkerWorkChanged(ws[1..], w - 1, x, n);
    }
  }

  lemma {:induction false} WorkerWorkAdded(ws: seq<Worker>, n: nat)
    ensures WorkersWork(ws + [Ready], n) == WorkersWork(ws, n) + 1
  {
    if ws == [] {
      assert (ws + [Ready])[1..] == [];
    } else {
      assert (ws + [Ready])[1..] == ws[1..] + [Ready];
      WorkerWorkAdded(ws[1..], n);
    }
  }

  lemma {:induction false} WakingWorkers(ws: seq<Worker>, n: nat)
    ensures WorkersWork(AllWorkersWoken(ws), n) <= WorkersWork(ws, n) + |ws|
  {
    if ws != [] {
      assert AllWorkersWoken(ws)[1..] == AllWorkersWoken(ws[1..]);
      WakingWorkers(ws[1..], n);
    }
  }

  lemma {:induction false} ProducerWorkChanged(ps: seq<Producer>, p: nat, x: Producer, n: nat)
    requires p < |ps|
    ensures ProducersWork(ps[p := x], n) + ProducerWork(ps[p], n) == ProducersWork(ps, n) + ProducerWork(x, n)
  {
    var r := ps[p := x];
    if p == 0 {
      assert r[1..] == ps[1..];
    } else {
      assert r[1..] == ps[1..][p - 1 := x];
      ProducerWorkChanged(ps[1..], p - 1, x, n);
    }
  }

  lemma {:induction false} WakingProducers(ps: seq<Producer>, n: nat)
    ensures ProducersWork(AllProducersWoken(ps), n) <= ProducersWork(ps, n) + |ps|
  {
    if ps != [] {
      assert AllProducersWoken(ps)[1..] == AllProducersWoken(ps[1..]);
      WakingProducers(ps[1..], n);
    }
  }

  /** Waking one sleeper, and perhaps adding a worker, is worth at most three steps. */
  lemma StartingWork(cfg: Config, s: State, mayGrow: bool, woken: nat, n: nat)
    ensures var ws := NotifyOne(Grown(cfg, s, mayGrow), woken);
            WorkersWork(ws, n) + WakeWork(s.stop, |ws|)
            <= WorkersWork(s.workers, n) + WakeWork(s.stop, |s.workers|) + 3
  {
    var grown := Grown(cfg, s, mayGrow);
    WorkerWorkAdded(s.workers, n);
    if woken < |grown| && grown[woken].Asleep? {
      WorkerWorkChanged(grown, woken, Woken, n);
    }
  }

  lemma PushWorks(cfg: Config, s: State, p: nat, mayGrow: bool, woken: nat)
    requires p < |s.producers| && (s.producers[p].Submitting? || s.producers[p].Unblocked?)
    ensures Work(Pushed(cfg, WithProducer(s, p, Idle), s.producers[p].task, mayGrow, woken)) < Work(s)
  {
    var n, s1 := |s.producers|, WithProducer(s, p, Idle);
    ProducerWorkChanged(s.producers, p, Idle, n);
    StartingWork(cfg, s1, mayGrow, woken, n);
    assert |s.queue + multiset{s.producers[p].task}| == |s.queue| + 1;
  }

  lemma WaitWorks(s: State, p: nat, x: Producer, t: State)
    requires p < |s.producers| && (s.producers[p].Submitting? || s.producers[p].Unblocked?)
    requires (x.Idle? || x.Blocked?) && t == WithProducer(s, p, x).(rejected := t.rejected, turnedAway := t.turnedAway)
    ensures Work(t) < Work(s)
  {
    ProducerWorkChanged(s.producers, p, x, |s.producers|);
  }

  lemma SubmitWorks(cfg: Config, s: State, p: nat, woken: nat)
    requires Enabled(s, Submit(p, woken))
    ensures Work(AfterSubmit(cfg, s, p, woken)) < Work(s)
  {
    var task, t := s.producers[p].task, AfterSubmit(cfg, s, p, woken);
    if !IsFull(cfg, s) {
      PushWorks(cfg, s, p, !s.producers[p].trying, woken);
    } else {
      WaitWorks(s, p, t.producers[p], t);
    }
  }

  lemma RecheckWorks(cfg: Config, s: State, p: nat, woken: nat)
    requires Enabled(s, Recheck(p, woken))
    ensures Work(AfterRecheck(cfg, s, p, woken)) < Work(s)
  {
    var t := AfterRecheck(cfg, s, p, woken);
    if !s.Stopped() && !IsFull(cfg, s) {
      PushWorks(cfg, s, p, true, woken);
    } else {
      WaitWorks(s, p, t.producers[p], t);
    }
  }

  lemma TakeWorks(s: State, w: nat, task: Task)
    requires Enabled(s, Take(w, task))
    ensures Work(AfterTake(s, w, task)) < Work(s)
  {
    var t := AfterTake(s, w, task);
    WorkerWorkChanged(s.workers, w, t.workers[w], |s.producers|);
    if s.queue != multiset{} {
      assert s.queue == t.queue + multiset{task};
    }
  }

  lemma NotificationWorks(s: State, w: nat)
    requires w < |s.workers| && s.workers[w].Counted?
    ensures Work(AfterAdvance(s, w)) < Work(s)
  {
    WorkerWorkChanged(s.workers, w, Ready, |s.producers|);
    WakingProducers(s.producers, |s.producers|);
  }

  /** A worker that goes on, all the rest that matters unchanged. */
  lemma WorkerGoesOn(s: State, w: nat, x: Worker, t: State)
    requires w < |s.workers| && WorkerWork(x, |s.producers|) < WorkerWork(s.workers[w], |s.producers|)
    requires t.workers == s.workers[w := x]
    requires t.queue == s.queue && t.producers == s.producers && t.stop == s.stop
    ensures Work(t) < Work(s)
  {
    WorkerWorkChanged(s.workers, w, x, |s.producers|);
  }

  lemma AdvanceWorks(s: State, w: nat)
    requires Enabled(s, Advance(w))
    ensures Work(AfterAdvance(s, w)) < Work(s)
  {
    var t := AfterAdvance(s, w);
    match s.workers[w]
    case Holding(_) => WorkerGoesOn(s, w, Ran, t);
    case Ran => WorkerGoesOn(s, w, Inactive, t);
    case Inactive => WorkerGoesOn(s, w, Counted, t);
    case Counted => NotificationWorks(s, w);
  }

  lemma StopWorks(s: State)
    requires Enabled(s, Stop)
    ensures Work(AfterStop(s)) < Work(s)
  {
    WakingWorkers(s.workers, |s.producers|);
    WakingProducers(s.producers, |s.producers|);
  }

  /** Every action of a thread that is under way uses up some work. */
  lemma StepWorks(cfg: Config, s: State, step: Step)
    requires Enabled(s, step) && Works(step)
    ensures Work(Next(cfg, s, step)) < Work(s)
  {
    match step
    case Submit(p, woken) => SubmitWorks(cfg, s, p, woken);
    case Recheck(p, woken) => RecheckWorks(cfg, s, p, woken);
    case Take(w, task) => TakeWorks(s, w, task);
    case Advance(w) => AdvanceWorks(s, w);
    case Stop => StopWorks(s);
  }

  /** Without new calls and unprompted wakeups no run is longer than the work there is. */
  lemma {:induction false} EveryRunEnds(cfg: Config, s: State, steps: seq<Step>, t: State)
    requires IsRun(cfg, s, steps, t) && forall step :: step in steps ==> Works(step)
    ensures |steps| + Work(t) <= Work(s)
    decreases |steps|
  {
    if steps != [] {
      assert steps[0] in steps;
      StepWorks(cfg, s, steps[0]);
      EveryRunEnds(cfg, Next(cfg, s, steps[0]), steps[1..], t);
    }
  }

  // ---------- where it ends ----------

  /** Nothing can happen but a new call, an unprompted wakeup, or the next action of stop. */
  ghost predicate AtRest(s: State) {
    forall step :: Enabled(s, step) && Works(step) ==> step.Stop?
  }

  ghost predicate IsMostUrgent(queue: multiset<Task>, task: Task) {
    task in queue && forall t :: t in queue ==> t.priority <= task.priority
  }

  lemma {:induction false} MostUrgent(queue: multiset<Task>) returns (task: Task)
    requires queue != multiset{}
    ensures IsMostUrgent(queue, task)
    decreases |queue|
  {
    task :| task in queue;
    var rest := queue - multiset{task};
    assert forall t :: t in queue ==> t == task || t in rest;
    if rest != multiset{} {
      var other := MostUrgent(rest);
      assert other in queue;
      if task.priority < other.priority {
        task := other;
      }
    }
  }

  lemma WorkersAtRest(s: State)
    requires AtRest(s)
    ensures forall w :: w in s.workers ==> w.Asleep? || w.Exited?
  {
    forall x | x in s.workers ensures x.Asleep? || x.Exited? {
      var w :| 0 <= w < |s.workers| && s.workers[w] == x;
      if x.Ready? || x.Woken? {
        if s.queue != multiset{} {
          var task := MostUrgent(s.queue);
          assert Enabled(s, Take(w, task));
        } else {
          assert Enabled(s, Take(w, Task(0, 0)));
        }
      } else if IsBusy(x) {
        assert Enabled(s, Advance(w));
      }
    }
  }

  lemma SomeSleeper(ws: seq<Worker>) returns (woken: nat)
    ensures ChoosesSleeper(ws, woken)
  {
    woken := 0;
    if w :| w in ws && w.Asleep? {
      var i :| 0 <= i < |ws| && ws[i] == w;
      woken := i;
    }
  }

  lemma ProducersAtRest(s: State)
    requires AtRest(s)
    ensures forall p :: p in s.producers ==> p.Idle? || p.Blocked?
  {
    var woken := SomeSleeper(s.workers);
    forall x | x in s.producers ensures x.Idle? || x.Blocked? {
      var p :| 0 <= p < |s.producers| && s.producers[p] == x;
      assert x.Submitting? ==> Enabled(s, Submit(p, woken));
      assert x.Unblocked? ==> Enabled(s, Recheck(p, woken));
    }
  }

  lemma {:induction false} NoneAwake(ws: seq<Worker>, u: Task)
    requires forall w :: w in ws ==> w.Asleep? || w.Exited?
    ensures var k := TalliesOf(ws, u);
            k.woken == 0 && k.busy == 0 && k.holding == 0 && k.asleep + k.exited == k.size
  {
    if ws != [] {
      assert ws[0] in ws;
      forall w | w in ws[1..] ensures w.Asleep? || w.Exited? {
        assert w in ws;
      }
      NoneAwake(ws[1..], u);
    }
  }

  /** In a pool at rest, as far as task `u` is concerned. */
  lemma TaskAtRest(cfg: Config, s: State, u: Task)
    requires Reachable(cfg, s) && AtRest(s)
    ensures s.queue[u] == s.orphans[u]
    ensures !NoneLeft(s.workers) ==> s.queue == multiset{}
    ensures u in s.Accepted() ==> s.executed[u] == if u in s.orphans then 0 else 1
  {
    ReachableInv(cfg, s, u);
    WorkersAtRest(s);
    NoneAwake(s.workers, u);
    NoneLeftMeans(s.workers, u);
  }

  /**
   * Where every run ends no caller waits, each accepted task has run exactly once unless it was
   * stranded without workers, and while the pool is not stopping nothing is left in the queue.
   */
  lemma PoolAtRest(cfg: Config, s: State)
    requires Reachable(cfg, s) && AtRest(s) && cfg.minThreads > 0 && cfg.maxQueueSize > 0
    ensures forall p :: p in s.producers ==> p.Idle?
    ensures s.queue == s.orphans
    ensures !NoneLeft(s.workers) || !s.Stopped() ==> s.queue == multiset{}
    ensures forall u :: u in s.Accepted() ==> s.executed[u] == if u in s.orphans then 0 else 1
  {
    WorkersAtRest(s);
    ProducersAtRest(s);
    if exists p :: p in s.producers && p.Blocked? {
      SleepingProducerIsNotForgotten(cfg, s);
    }
    forall u ensures s.queue[u] == s.orphans[u] {
      TaskAtRest(cfg, s, u);
    }
    TaskAtRest(cfg, s, Task(0, 0));
    if !s.Stopped() {
      WorkersRemain(cfg, s, Task(0, 0));
    }
    forall u | u in s.Accepted() ensures s.executed[u] == if u in s.orphans then 0 else 1 {
      TaskAtRest(cfg, s, u);
    }
  }

  lemma WorkersRemain(cfg: Config, s: State, u: Task)
    requires Reachable(cfg, s) && cfg.minThreads > 0 && !s.Stopped()
    ensures !NoneLeft(s.workers)
  {
    ReachableInv(cfg, s, u);
    NoneLeftMeans(s.workers, u);
  }
}
