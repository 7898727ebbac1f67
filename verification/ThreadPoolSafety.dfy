/** Every step of the pool keeps its invariant, and what follows for every reachable state. */
module ThreadPoolSafety {
  import opened ThreadPool

  // ---------- how single updates show in the tallies ----------

  /** Changing one worker changes the tallies by that worker's share. */
  lemma {:induction false} WorkerChanged(ws: seq<Worker>, w: nat, x: Worker, u: Task)
    requires w < |ws|
    ensures Add(TalliesOf(ws[w := x], u), Share(ws[w], u)) == Add(TalliesOf(ws, u), Share(x, u))
  {
    var r := ws[w := x];
    if w == 0 {
      assert r[1..] == ws[1..];
    } else {
      assert r[1..] == ws[1..][w - 1 := x];
      WorkerChanged(ws[1..], w - 1, x, u);
      AddFirst(Share(ws[0], u), TalliesOf(r[1..], u), Share(ws[w], u));
      AddFirst(Share(ws[0], u), TalliesOf(ws[1..], u), Share(x, u));
    }
  }

  lemma AddFirst(a: Tallies, b: Tallies, c: Tallies)
    ensures Add(Add(a, b), c) == Add(a, Add(b, c))
  {
  }

  lemma {:induction false} WorkerAdded(ws: seq<Worker>, u: Task)
    ensures TalliesOf(ws + [Ready], u) == Add(TalliesOf(ws, u), Share(Ready, u))
  {
    if ws == [] {
      assert ws + [Ready] == [Ready] && [Ready][1..] == [];
    } else {
      assert (ws + [Ready])[1..] == ws[1..] + [Ready];
      WorkerAdded(ws[1..], u);
      AddFirst(Share(ws[0], u), TalliesOf(ws[1..], u), Share(Ready, u));
    }
  }

  function WithSleepersWoken(k: Tallies): Tallies {
    k.(asleep := 0, woken := k.woken + k.asleep)
  }

  /** Waking everybody only turns sleepers into woken workers. */
  lemma {:induction false} WorkersWoken(ws: seq<Worker>, u: Task)
    ensures TalliesOf(AllWorkersWoken(ws), u) == WithSleepersWoken(TalliesOf(ws, u))
  {
    if ws != [] {
      var all := AllWorkersWoken(ws);
      assert all[1..] == AllWorkersWoken(ws[1..]);
      calc {
        TalliesOf(all, u);
        Add(Share(all[0], u), TalliesOf(all[1..], u));
        { WorkersWoken(ws[1..], u); }
        Add(Share(all[0], u), WithSleepersWoken(TalliesOf(ws[1..], u)));
        { WakingShare(ws[0], u); }
        Add(WithSleepersWoken(Share(ws[0], u)), WithSleepersWoken(TalliesOf(ws[1..], u)));
        { WakingAdds(Share(ws[0], u), TalliesOf(ws[1..], u)); }
        WithSleepersWoken(TalliesOf(ws, u));
      }
    }
  }

  lemma WakingShare(w: Worker, u: Task)
    ensures Share(if w.Asleep? then Woken else w, u) == WithSleepersWoken(Share(w, u))
  {
  }

  lemma WakingAdds(a: Tallies, b: Tallies)
    ensures WithSleepersWoken(Add(a, b)) == Add(WithSleepersWoken(a), WithSleepersWoken(b))
  {
  }

  lemma {:induction false} ProducersWoken(ps: seq<Producer>, u: Task)
    ensures WaitingOf(AllProducersWoken(ps), u) == WaitingOf(ps, u).(blocked := 0)
  {
    if ps != [] {
      assert AllProducersWoken(ps)[1..] == AllProducersWoken(ps[1..]);
      ProducersWoken(ps[1..], u);
    }
  }

  /** `r` is `q` after one producer went from `was` to `x`. */
  ghost predicate ProducerMoved(q: Waiting, was: Producer, x: Producer, u: Task, r: Waiting) {
    && r.blocked + One(was.Blocked?) == q.blocked + One(x.Blocked?)
    && r.pending + One(HasTask(was, u)) == q.pending + One(HasTask(x, u))
  }

  lemma {:induction false} ProducerChanged(ps: seq<Producer>, p: nat, x: Producer, u: Task)
    requires p < |ps|
    ensures ProducerMoved(WaitingOf(ps, u), ps[p], x, u, WaitingOf(ps[p := x], u))
  {
    var r := ps[p := x];
    if p == 0 {
      assert r[1..] == ps[1..];
    } else {
      assert r[1..] == ps[1..][p - 1 := x];
      ProducerChanged(ps[1..], p - 1, x, u);
    }
  }

  // ---------- what the tallies say about single threads ----------

  lemma {:induction false} TalliesFit(ws: seq<Worker>, u: Task)
    ensures var k := TalliesOf(ws, u);
            && k.size == |ws| && k.holding <= k.active
            && k.asleep + k.woken + k.busy + k.exited <= k.size && k.active + k.inactive <= k.busy
  {
    if ws != [] {
      TalliesFit(ws[1..], u);
    }
  }

  lemma {:induction false} AsleepMeans(ws: seq<Worker>, u: Task)
    ensures TalliesOf(ws, u).asleep > 0 <==> exists w :: w in ws && w.Asleep?
  {
    if ws != [] {
      AsleepMeans(ws[1..], u);
      assert forall w :: w in ws <==> w == ws[0] || w in ws[1..];
    }
  }

  lemma {:induction false} WokenMeans(ws: seq<Worker>, u: Task)
    ensures TalliesOf(ws, u).woken > 0 <==> exists w :: w in ws && w.Woken?
  {
    if ws != [] {
      WokenMeans(ws[1..], u);
      assert forall w :: w in ws <==> w == ws[0] || w in ws[1..];
    }
  }

  lemma {:induction false} BusyMeans(ws: seq<Worker>, u: Task)
    ensures TalliesOf(ws, u).busy > 0 <==> exists w :: w in ws && IsBusy(w)
  {
    if ws != [] {
      BusyMeans(ws[1..], u);
      assert forall w :: w in ws <==> w == ws[0] || w in ws[1..];
    }
  }

  lemma {:induction false} ExitedMeans(ws: seq<Worker>, u: Task)
    ensures TalliesOf(ws, u).exited <= |ws|
    ensures TalliesOf(ws, u).exited == |ws| <==> forall w :: w in ws ==> w.Exited?
  {
    if ws != [] {
      ExitedMeans(ws[1..], u);
      assert forall w :: w in ws <==> w == ws[0] || w in ws[1..];
    }
  }

  lemma {:induction false} BlockedMeans(ps: seq<Producer>, u: Task)
    ensures WaitingOf(ps, u).blocked > 0 <==> exists p :: p in ps && p.Blocked?
  {
    if ps != [] {
      BlockedMeans(ps[1..], u);
      assert forall p :: p in ps <==> p == ps[0] || p in ps[1..];
    }
  }

  // ---------- the steps, seen through the tallies ----------

  /** A producer that leaves without its task, or only changes the way it waits. */
  lemma LeaveCore(cfg: Config, s: State, u: Task, k: Tallies, q: Waiting, was: Producer, x: Producer,
                  t: State, r: Waiting)
    requires CoreInv(cfg, s, u, k, q) && ProducerMoved(q, was, x, u, r)
    requires HasTask(x, u) ==> HasTask(was, u)
    requires x.Blocked? ==> IsFull(cfg, s) && !s.Stopped()
    requires t == s.(producers := t.producers, rejected := t.rejected, turnedAway := t.turnedAway)
    ensures CoreInv(cfg, t, u, k, r)
  {
  }

  lemma CallCore(cfg: Config, s: State, u: Task, k: Tallies, q: Waiting, x: Producer, t: State, r: Waiting)
    requires CoreInv(cfg, s, u, k, q) && ProducerMoved(q, Idle, x, u, r) && x.Submitting? && x.task.id == s.nextId
    requires t == s.(producers := t.producers, nextId := s.nextId + 1)
    ensures CoreInv(cfg, t, u, k, r)
  {
  }

  /** `l` is `k` after one sleeper, if there is any, was woken, and perhaps one worker was added. */
  ghost predicate OneWokenMaybeGrown(cfg: Config, k: Tallies, l: Tallies) {
    && l == k.(size := l.size, asleep := l.asleep, woken := l.woken)
    && l.woken == k.woken + One(k.asleep > 0) && l.asleep + One(k.asleep > 0) == k.asleep
    && (l.size == k.size || HasGrown(cfg, k, l))
  }

  /** A thread is only added when there is none, or when all are active. */
  ghost predicate HasGrown(cfg: Config, k: Tallies, l: Tallies) {
    l.size == k.size + 1 <= cfg.maxThreads && !NoneLeftIn(l) && (NoneLeftIn(k) ==> k.size == 0)
  }

  function AfterPush(s: State, task: Task, ws: seq<Worker>, ps: seq<Producer>, k: Tallies, l: Tallies): State {
    var one := multiset{task};
    s.(queue := s.queue + one, total := s.total + 1, workers := ws, producers := ps,
       early := if s.Stopped() then s.early else s.early + one,
       late := if s.Stopped() then s.late + one else s.late,
       orphans := if l.size > k.size then multiset{}
                  else if NoneLeftIn(k) then s.orphans + one
                  else s.orphans)
  }

  /** A push: the task moves from its producer to the queue, and one sleeper wakes if there is any. */
  lemma PushCore(cfg: Config, s: State, u: Task, k: Tallies, q: Waiting, was: Producer,
                 t: State, l: Tallies, r: Waiting)
    requires CoreInv(cfg, s, u, k, q) && !IsFull(cfg, s)
    requires !was.Idle? && ProducerMoved(q, was, Idle, u, r)
    requires OneWokenMaybeGrown(cfg, k, l)
    requires t == AfterPush(s, was.task, t.workers, t.producers, k, l)
    ensures CoreInv(cfg, t, u, l, r)
  {
    assert |t.queue| == |s.queue| + 1;
  }

  /** `l` is `k` after one worker went from `was` to `x`. */
  ghost predicate WorkerMoved(k: Tallies, was: Worker, x: Worker, u: Task, l: Tallies) {
    Add(l, Share(was, u)) == Add(k, Share(x, u))
  }

  lemma TakeCore(cfg: Config, s: State, u: Task, k: Tallies, q: Waiting, was: Worker, task: Task,
                 t: State, l: Tallies)
    requires CoreInv(cfg, s, u, k, q) && (was.Ready? || was.Woken?) && task in s.queue
    requires WorkerMoved(k, was, Holding(task), u, l) && !NoneLeftIn(k)
    requires t == s.(workers := t.workers, queue := s.queue - multiset{task}, active := s.active + 1)
    ensures CoreInv(cfg, t, u, l, q)
  {
    assert |t.queue| == |s.queue| - 1;
  }

  lemma RestCore(cfg: Config, s: State, u: Task, k: Tallies, q: Waiting, was: Worker, t: State, l: Tallies)
    requires CoreInv(cfg, s, u, k, q) && (was.Ready? || was.Woken?) && s.queue == multiset{}
    requires !NoneLeftIn(k) && l.busy + l.exited <= l.size
    requires WorkerMoved(k, was, if s.Stopped() then Exited else Asleep, u, l) && t == s.(workers := t.workers)
    ensures CoreInv(cfg, t, u, l, q)
  {
    assert s.queue[u] == 0;
  }

  lemma WakeCore(cfg: Config, s: State, u: Task, k: Tallies, q: Waiting, t: State, l: Tallies)
    requires CoreInv(cfg, s, u, k, q) && WorkerMoved(k, Asleep, Woken, u, l) && t == s.(workers := t.workers)
    ensures CoreInv(cfg, t, u, l, q)
  {
  }

  lemma RunCore(cfg: Config, s: State, u: Task, k: Tallies, q: Waiting, task: Task, t: State, l: Tallies)
    requires CoreInv(cfg, s, u, k, q) && WorkerMoved(k, Holding(task), Ran, u, l)
    requires t == s.(workers := t.workers, executed := s.executed + multiset{task})
    ensures CoreInv(cfg, t, u, l, q)
  {
  }

  lemma DeactivateCore(cfg: Config, s: State, u: Task, k: Tallies, q: Waiting, t: State, l: Tallies)
    requires CoreInv(cfg, s, u, k, q) && WorkerMoved(k, Ran, Inactive, u, l)
    requires t == s.(workers := t.workers, active := if s.active > 0 then s.active - 1 else 0)
    ensures CoreInv(cfg, t, u, l, q)
  {
  }

  lemma CompleteCore(cfg: Config, s: State, u: Task, k: Tallies, q: Waiting, t: State, l: Tallies)
    requires CoreInv(cfg, s, u, k, q) && WorkerMoved(k, Inactive, Counted, u, l)
    requires t == s.(workers := t.workers, completed := s.completed + 1)
    ensures CoreInv(cfg, t, u, l, q)
  {
  }

  lemma NotifyCore(cfg: Config, s: State, u: Task, k: Tallies, q: Waiting, t: State, l: Tallies)
    requires CoreInv(cfg, s, u, k, q) && WorkerMoved(k, Counted, Ready, u, l)
    requires t == s.(workers := t.workers, producers := t.producers)
    ensures CoreInv(cfg, t, u, l, q.(blocked := 0))
  {
  }

  // ---------- the steps themselves ----------

  lemma NoneLeftMeans(ws: seq<Worker>, u: Task)
    ensures NoneLeft(ws) <==> NoneLeftIn(TalliesOf(ws, u))
  {
    TalliesFit(ws, u);
    ExitedMeans(ws, u);
  }

  lemma LeaveKept(cfg: Config, s: State, u: Task, p: nat, x: Producer, t: State)
    requires InvFor(cfg, s, u) && p < |s.producers|
    requires x.Idle? || (!s.producers[p].Idle? && x.task == s.producers[p].task)
    requires x.Blocked? ==> IsFull(cfg, s) && !s.Stopped()
    requires t == WithProducer(s, p, x).(rejected := t.rejected, turnedAway := t.turnedAway)
    ensures InvFor(cfg, t, u)
  {
    ProducerChanged(s.producers, p, x, u);
    LeaveCore(cfg, s, u, TalliesOf(s.workers, u), WaitingOf(s.producers, u), s.producers[p], x,
              t, WaitingOf(t.producers, u));
  }

  lemma NotifyTallies(ws: seq<Worker>, woken: nat, u: Task)
    requires ChoosesSleeper(ws, woken)
    ensures var k, l := TalliesOf(ws, u), TalliesOf(NotifyOne(ws, woken), u);
            && l == k.(asleep := l.asleep, woken := l.woken)
            && l.woken == k.woken + One(k.asleep > 0) && l.asleep + One(k.asleep > 0) == k.asleep
  {
    AsleepMeans(ws, u);
    if woken < |ws| && ws[woken].Asleep? {
      WorkerChanged(ws, woken, Woken, u);
    }
  }

  lemma GrownTallies(cfg: Config, s: State, mayGrow: bool, u: Task)
    requires s.active == TalliesOf(s.workers, u).active
    ensures var k, l := TalliesOf(s.workers, u), TalliesOf(Grown(cfg, s, mayGrow), u);
            && l == k.(size := l.size)
            && (l.size == k.size || HasGrown(cfg, k, l))
            && l.size - k.size == |Grown(cfg, s, mayGrow)| - |s.workers|
  {
    if Grown(cfg, s, mayGrow) != s.workers {
      OneMoreWorker(s.workers, u);
      TalliesFit(s.workers, u);
      RoomForOne(cfg, TalliesOf(s.workers, u));
    }
  }

  lemma RoomForOne(cfg: Config, k: Tallies)
    requires k.size < cfg.maxThreads && k.size <= k.active && k.active + k.exited <= k.size
    ensures HasGrown(cfg, k, k.(size := k.size + 1))
  {
  }

  lemma OneMoreWorker(ws: seq<Worker>, u: Task)
    ensures TalliesOf(ws + [Ready], u) == TalliesOf(ws, u).(size := TalliesOf(ws, u).size + 1)
  {
    WorkerAdded(ws, u);
    ReadyAdds(TalliesOf(ws, u), u);
  }

  lemma ReadyAdds(k: Tallies, u: Task)
    ensures Add(k, Share(Ready, u)) == k.(size := k.size + 1)
  {
  }

  lemma GrownSleepers(cfg: Config, s: State, mayGrow: bool, woken: nat)
    requires ChoosesSleeper(s.workers, woken)
    ensures ChoosesSleeper(Grown(cfg, s, mayGrow), woken)
  {
    var grown := Grown(cfg, s, mayGrow);
    if w :| w in grown && w.Asleep? {
      assert w in s.workers;
    }
  }

  lemma PushedTallies(cfg: Config, s: State, mayGrow: bool, woken: nat, u: Task)
    requires s.active == TalliesOf(s.workers, u).active && ChoosesSleeper(s.workers, woken)
    ensures var k, l := TalliesOf(s.workers, u), TalliesOf(NotifyOne(Grown(cfg, s, mayGrow), woken), u);
            && OneWokenMaybeGrown(cfg, k, l)
            && l.size - k.size == |Grown(cfg, s, mayGrow)| - |s.workers|
  {
    GrownTallies(cfg, s, mayGrow, u);
    GrownSleepers(cfg, s, mayGrow, woken);
    NotifyTallies(Grown(cfg, s, mayGrow), woken, u);
  }

  /** A push in terms of the tallies before and after it. */
  lemma PushedShape(cfg: Config, s: State, p: nat, mayGrow: bool, woken: nat, k: Tallies, l: Tallies)
    requires p < |s.producers| && !s.producers[p].Idle?
    requires NoneLeft(s.workers) <==> NoneLeftIn(k)
    requires l.size - k.size == |Grown(cfg, s, mayGrow)| - |s.workers|
    ensures var t := Pushed(cfg, WithProducer(s, p, Idle), s.producers[p].task, mayGrow, woken);
            t == AfterPush(s, s.producers[p].task, t.workers, t.producers, k, l)
  {
  }

  lemma PushedKept(cfg: Config, s: State, u: Task, p: nat, mayGrow: bool, woken: nat)
    requires InvFor(cfg, s, u) && p < |s.producers| && !s.producers[p].Idle?
    requires !IsFull(cfg, s) && ChoosesSleeper(s.workers, woken)
    ensures InvFor(cfg, Pushed(cfg, WithProducer(s, p, Idle), s.producers[p].task, mayGrow, woken), u)
  {
    var was := s.producers[p];
    var t := Pushed(cfg, WithProducer(s, p, Idle), was.task, mayGrow, woken);
    var k, q := TalliesOf(s.workers, u), WaitingOf(s.producers, u);
    var l, r := TalliesOf(t.workers, u), WaitingOf(t.producers, u);
    assert ProducerMoved(q, was, Idle, u, r) by {
      ProducerChanged(s.producers, p, Idle, u);
    }
    PushedTallies(cfg, s, mayGrow, woken, u);
    NoneLeftMeans(s.workers, u);
    PushedShape(cfg, s, p, mayGrow, woken, k, l);
    PushCore(cfg, s, u, k, q, was, t, l, r);
  }

  lemma CallKept(cfg: Config, s: State, u: Task, p: nat, priority: nat, trying: bool)
    requires InvFor(cfg, s, u) && Enabled(s, Call(p, priority, trying))
    ensures InvFor(cfg, Next(cfg, s, Call(p, priority, trying)), u)
  {
    if !s.Stopped() {
      var x := Submitting(Task(s.nextId, priority), trying);
      var t := Next(cfg, s, Call(p, priority, trying));
      ProducerChanged(s.producers, p, x, u);
      CallCore(cfg, s, u, TalliesOf(s.workers, u), WaitingOf(s.producers, u), x, t, WaitingOf(t.producers, u));
    }
  }

  lemma SubmitKept(cfg: Config, s: State, u: Task, p: nat, woken: nat)
    requires InvFor(cfg, s, u) && Enabled(s, Submit(p, woken))
    ensures InvFor(cfg, AfterSubmit(cfg, s, p, woken), u)
  {
    var task, trying := s.producers[p].task, s.producers[p].trying;
    if !IsFull(cfg, s) {
      PushedKept(cfg, s, u, p, !trying, woken);
    } else if trying || cfg.policy.Discard? || s.Stopped() {
      LeaveKept(cfg, s, u, p, Idle, AfterSubmit(cfg, s, p, woken));
    } else {
      LeaveKept(cfg, s, u, p, Blocked(task), AfterSubmit(cfg, s, p, woken));
    }
  }

  lemma RecheckKept(cfg: Config, s: State, u: Task, p: nat, woken: nat)
    requires InvFor(cfg, s, u) && Enabled(s, Recheck(p, woken))
    ensures InvFor(cfg, AfterRecheck(cfg, s, p, woken), u)
  {
    if s.Stopped() {
      LeaveKept(cfg, s, u, p, Idle, AfterRecheck(cfg, s, p, woken));
    } else if IsFull(cfg, s) {
      LeaveKept(cfg, s, u, p, Blocked(s.producers[p].task), AfterRecheck(cfg, s, p, woken));
    } else {
      PushedKept(cfg, s, u, p, true, woken);
    }
  }

  lemma TakeKept(cfg: Config, s: State, u: Task, w: nat, task: Task)
    requires InvFor(cfg, s, u) && Enabled(s, Take(w, task))
    ensures InvFor(cfg, AfterTake(s, w, task), u)
  {
    var t, k, q := AfterTake(s, w, task), TalliesOf(s.workers, u), WaitingOf(s.producers, u);
    var l := TalliesOf(t.workers, u);
    WorkerChanged(s.workers, w, t.workers[w], u);
    NoneLeftMeans(s.workers, u);
    assert s.workers[w] in s.workers;
    if s.queue == multiset{} {
      TalliesFit(t.workers, u);
      RestCore(cfg, s, u, k, q, s.workers[w], t, l);
    } else {
      TakeCore(cfg, s, u, k, q, s.workers[w], task, t, l);
    }
  }

  lemma TaskEndKept(cfg: Config, s: State, u: Task, w: nat)
    requires InvFor(cfg, s, u) && w < |s.workers| && IsActive(s.workers[w])
    ensures InvFor(cfg, AfterAdvance(s, w), u)
  {
    var t, k, q := AfterAdvance(s, w), TalliesOf(s.workers, u), WaitingOf(s.producers, u);
    var l := TalliesOf(t.workers, u);
    WorkerChanged(s.workers, w, t.workers[w], u);
    if s.workers[w].Holding? {
      RunCore(cfg, s, u, k, q, s.workers[w].task, t, l);
    } else {
      DeactivateCore(cfg, s, u, k, q, t, l);
    }
  }

  lemma CompletionKept(cfg: Config, s: State, u: Task, w: nat)
    requires InvFor(cfg, s, u) && w < |s.workers| && s.workers[w].Inactive?
    ensures InvFor(cfg, AfterAdvance(s, w), u)
  {
    var t := AfterAdvance(s, w);
    WorkerChanged(s.workers, w, Counted, u);
    CompleteCore(cfg, s, u, TalliesOf(s.workers, u), WaitingOf(s.producers, u), t, TalliesOf(t.workers, u));
  }

  lemma NotificationKept(cfg: Config, s: State, u: Task, w: nat)
    requires InvFor(cfg, s, u) && w < |s.workers| && s.workers[w].Counted?
    ensures InvFor(cfg, AfterAdvance(s, w), u)
  {
    var t := AfterAdvance(s, w);
    WorkerChanged(s.workers, w, Ready, u);
    ProducersWoken(s.producers, u);
    NotifyCore(cfg, s, u, TalliesOf(s.workers, u), WaitingOf(s.producers, u), t, TalliesOf(t.workers, u));
  }

  lemma AdvanceKept(cfg: Config, s: State, u: Task, w: nat)
    requires InvFor(cfg, s, u) && Enabled(s, Advance(w))
    ensures InvFor(cfg, AfterAdvance(s, w), u)
  {
    if IsActive(s.workers[w]) {
      TaskEndKept(cfg, s, u, w);
    } else if s.workers[w].Inactive? {
      CompletionKept(cfg, s, u, w);
    } else {
      NotificationKept(cfg, s, u, w);
    }
  }

  lemma WakeWorkerKept(cfg: Config, s: State, u: Task, w: nat)
    requires InvFor(cfg, s, u) && Enabled(s, WakeWorker(w))
    ensures InvFor(cfg, WithWorker(s, w, Woken), u)
  {
    var t := WithWorker(s, w, Woken);
    WorkerChanged(s.workers, w, Woken, u);
    WakeCore(cfg, s, u, TalliesOf(s.workers, u), WaitingOf(s.producers, u), t, TalliesOf(t.workers, u));
  }

  lemma StopCore(cfg: Config, s: State, u: Task, k: Tallies, q: Waiting, t: State, l: Tallies, r: Waiting)
    requires CoreInv(cfg, s, u, k, q) && t == s.(stop := t.stop, workers := t.workers, producers := t.producers)
    requires match s.stop
             case Running => t.stop == FlagSet && l == k && r == q
             case FlagSet => t.stop == WorkersNotified && l == WithSleepersWoken(k) && r == q
             case WorkersNotified => t.stop == ProducersNotified && l == k && r == q.(blocked := 0)
             case ProducersNotified => t.stop == Joined && NoneLeftIn(k) && l == k && r == q
             case _ => t.stop == Cleared && k == AllExited(k.size) && l == AllExited(0) && r == q
    ensures CoreInv(cfg, t, u, l, r)
  {
  }

  /** The tallies when `n` workers have exited and there is no other. */
  function AllExited(n: nat): Tallies {
    Tallies(n, 0, 0, 0, 0, 0, n, 0)
  }

  lemma ClearKept(cfg: Config, s: State, u: Task)
    requires InvFor(cfg, s, u) && Enabled(s, Stop) && s.stop == Joined
    ensures InvFor(cfg, AfterStop(s), u)
  {
    var t, k, q := AfterStop(s), TalliesOf(s.workers, u), WaitingOf(s.producers, u);
    NoneLeftMeans(s.workers, u);
    TalliesFit(s.workers, u);
    StopCore(cfg, s, u, k, q, t, AllExited(0), q);
  }

  lemma StopKept(cfg: Config, s: State, u: Task)
    requires InvFor(cfg, s, u) && Enabled(s, Stop) && s.stop != Joined
    ensures InvFor(cfg, AfterStop(s), u)
  {
    var t := AfterStop(s);
    WorkersWoken(s.workers, u);
    ProducersWoken(s.producers, u);
    NoneLeftMeans(s.workers, u);
    StopCore(cfg, s, u, TalliesOf(s.workers, u), WaitingOf(s.producers, u),
             t, TalliesOf(t.workers, u), WaitingOf(t.producers, u));
  }

  lemma StepKeptFor(cfg: Config, s: State, step: Step, u: Task)
    requires InvFor(cfg, s, u) && Enabled(s, step)
    ensures InvFor(cfg, Next(cfg, s, step), u)
  {
    match step
    case Call(p, priority, trying) => CallKept(cfg, s, u, p, priority, trying);
    case Submit(p, woken) => SubmitKept(cfg, s, u, p, woken);
    case Recheck(p, woken) => RecheckKept(cfg, s, u, p, woken);
    case WakeProducer(p) =>
      LeaveKept(cfg, s, u, p, Unblocked(s.producers[p].task), WithProducer(s, p, Unblocked(s.producers[p].task)));
    case Take(w, task) => TakeKept(cfg, s, u, w, task);
    case Advance(w) => AdvanceKept(cfg, s, u, w);
    case WakeWorker(w) => WakeWorkerKept(cfg, s, u, w);
    case Stop =>
      if s.stop == Joined {
        ClearKept(cfg, s, u);
      } else {
        StopKept(cfg, s, u);
      }
  }

  /** Every step, of whatever thread, keeps the invariant. */
  lemma StepKept(cfg: Config, s: State, step: Step)
    requires Inv(cfg, s) && Enabled(s, step)
    ensures Inv(cfg, Next(cfg, s, step))
  {
    forall u ensures InvFor(cfg, Next(cfg, s, step), u) {
      assert InvFor(cfg, s, u);
      StepKeptFor(cfg, s, step, u);
    }
  }

  // ---------- whole runs ----------

  lemma {:induction false} FreshWorkers(ws: seq<Worker>, u: Task)
    requires forall i :: 0 <= i < |ws| ==> ws[i] == Ready
    ensures TalliesOf(ws, u) == Tallies(|ws|, 0, 0, 0, 0, 0, 0, 0)
  {
    if ws != [] {
      FreshWorkers(ws[1..], u);
    }
  }

  lemma {:induction false} FreshProducers(ps: seq<Producer>, u: Task)
    requires forall i :: 0 <= i < |ps| ==> ps[i] == Idle
    ensures WaitingOf(ps, u) == Waiting(0, 0)
  {
    if ps != [] {
      FreshProducers(ps[1..], u);
    }
  }

  lemma InitialFor(cfg: Config, s: State, u: Task)
    requires forall i :: 0 <= i < |s.workers| ==> s.workers[i] == Ready
    requires forall i :: 0 <= i < |s.producers| ==> s.producers[i] == Idle
    requires s == Initial(cfg, 0).(workers := s.workers, producers := s.producers) && |s.workers| == cfg.minThreads
    ensures InvFor(cfg, s, u)
  {
    FreshWorkers(s.workers, u);
    FreshProducers(s.producers, u);
  }

  lemma InitialInv(cfg: Config, callers: nat)
    ensures Inv(cfg, Initial(cfg, callers))
  {
    var s := Initial(cfg, callers);
    forall u ensures InvFor(cfg, s, u) {
      InitialFor(cfg, s, u);
    }
  }

  lemma {:induction false} RunKept(cfg: Config, s: State, steps: seq<Step>, t: State)
    requires Inv(cfg, s) && IsRun(cfg, s, steps, t)
    ensures Inv(cfg, t)
    decreases |steps|
  {
    if steps != [] {
      StepKept(cfg, s, steps[0]);
      RunKept(cfg, Next(cfg, s, steps[0]), steps[1..], t);
    }
  }

  lemma ReachableInv(cfg: Config, s: State, u: Task)
    requires Reachable(cfg, s)
    ensures InvFor(cfg, s, u)
  {
    var callers, steps :| IsRun(cfg, Initial(cfg, callers), steps, s);
    InitialInv(cfg, callers);
    RunKept(cfg, Initial(cfg, callers), steps, s);
  }

  // ---------- what holds in every reachable state ----------

  /** While a worker sleeps, every queued task has a worker of its own already on the way to look. */
  lemma NoLostWorkerWakeup(cfg: Config, s: State, u: Task)
    requires Reachable(cfg, s)
    ensures (exists w :: w in s.workers && w.Asleep?) ==> |s.queue| <= TalliesOf(s.workers, u).woken
  {
    ReachableInv(cfg, s, u);
    AsleepMeans(s.workers, u);
  }

  /** A queued task never coexists with workers that are all asleep or gone, unless all are gone. */
  lemma QueuedTaskHasAwakeWorker(cfg: Config, s: State)
    requires Reachable(cfg, s) && s.queue != multiset{} && !NoneLeft(s.workers)
    ensures exists w :: w in s.workers && !w.Asleep? && !w.Exited?
  {
    var u := Task(0, 0);
    NoLostWorkerWakeup(cfg, s, u);
    if exists w :: w in s.workers && w.Asleep? {
      assert |s.queue| > 0;
      WokenMeans(s.workers, u);
      var w :| w in s.workers && w.Woken?;
    } else {
      var w :| w in s.workers && !w.Exited?;
    }
  }

  /** A producer sleeping beside a free slot has a notification coming from a worker, even while stopping. */
  lemma NoLostProducerWakeup(cfg: Config, s: State)
    requires Reachable(cfg, s) && |s.queue| < cfg.maxQueueSize
    requires exists p :: p in s.producers && p.Blocked?
    ensures exists w :: w in s.workers && IsBusy(w)
  {
    var u := Task(0, 0);
    ReachableInv(cfg, s, u);
    BusyMeans(s.workers, u);
    BlockedMeans(s.producers, u);
  }

  /** No deadlock: beside a sleeping producer some worker is awake. */
  lemma SleepingProducerIsNotForgotten(cfg: Config, s: State)
    requires Reachable(cfg, s) && cfg.minThreads > 0 && cfg.maxQueueSize > 0
    requires exists p :: p in s.producers && p.Blocked?
    ensures exists w :: w in s.workers && !w.Asleep? && !w.Exited?
  {
    if NoneLeft(s.workers) {
      BlockedBesideNone(cfg, s, Task(0, 0));
    } else if |s.queue| < cfg.maxQueueSize {
      NoLostProducerWakeup(cfg, s);
    } else {
      QueuedTaskHasAwakeWorker(cfg, s);
    }
  }

  lemma BlockedBesideNone(cfg: Config, s: State, u: Task)
    requires Reachable(cfg, s) && cfg.minThreads > 0 && cfg.maxQueueSize > 0 && NoneLeft(s.workers)
    ensures forall p :: p in s.producers ==> !p.Blocked?
  {
    ReachableInv(cfg, s, u);
    BlockedMeans(s.producers, u);
    NoneLeftMeans(s.workers, u);
  }

  /** Every accepted task is queued, running, between the counters or completed; all sizes stay bounded. */
  lemma Accounting(cfg: Config, s: State, u: Task)
    requires Reachable(cfg, s)
    ensures var k := TalliesOf(s.workers, u);
            && s.active == k.active
            && s.total == |s.queue| + s.active + k.inactive + s.completed
            && |s.queue| <= cfg.maxQueueSize
            && (cfg.minThreads <= cfg.maxThreads ==> |s.workers| <= cfg.maxThreads)
  {
    ReachableInv(cfg, s, u);
    TalliesFit(s.workers, u);
  }

  /** No task runs twice, or without having been accepted. */
  lemma NeverRunTwice(cfg: Config, s: State, u: Task)
    requires Reachable(cfg, s)
    ensures s.executed[u] <= s.Accepted()[u] <= 1
  {
    ReachableInv(cfg, s, u);
  }

  /**
   * When no worker is left, an accepted task has run exactly once if some worker was left when
   * it was accepted, or has been started since; otherwise it has not run.
   */
  lemma RanExactly(cfg: Config, s: State, u: Task)
    requires Reachable(cfg, s) && NoneLeft(s.workers) && u in s.Accepted()
    ensures s.executed[u] == (if u in s.orphans then 0 else 1)
  {
    ReachableInv(cfg, s, u);
    NoneLeftMeans(s.workers, u);
    TalliesFit(s.workers, u);
    NoneLeftCore(cfg, s, u, TalliesOf(s.workers, u), WaitingOf(s.producers, u));
  }

  lemma NoneLeftCore(cfg: Config, s: State, u: Task, k: Tallies, q: Waiting)
    requires CoreInv(cfg, s, u, k, q) && NoneLeftIn(k) && u in s.Accepted()
    requires k.holding <= k.active <= k.busy && k.busy + k.exited <= k.size
    ensures s.executed[u] == (if u in s.orphans then 0 else 1)
  {
  }

  /**
   * Shutdown drains: when the workers are joined, or no worker is left at all, every task accepted
   * before the stop has run exactly once. The pool must have, or be due to have had, a worker.
   */
  lemma ShutdownDrains(cfg: Config, s: State, u: Task)
    requires Reachable(cfg, s) && u in s.early
    requires cfg.minThreads > 0 || s.workers != []
    requires (s.stop == Joined && cfg.minThreads > 0) || NoneLeft(s.workers)
    ensures s.executed[u] == 1
  {
    ReachableInv(cfg, s, u);
    NoneLeftMeans(s.workers, u);
    TalliesFit(s.workers, u);
    RanExactly(cfg, s, u);
  }

  // ---------- a submission that races with stop ----------

  /** Stopping, no worker left, and no caller past the test of the stop flag. */
  ghost predicate Quiet(s: State) {
    && s.Stopped()
    && (forall w :: 0 <= w < |s.workers| ==> s.workers[w].Exited?)
    && (forall p :: 0 <= p < |s.producers| ==> s.producers[p].Idle?)
  }

  lemma QuietStays(cfg: Config, s: State, step: Step)
    requires Quiet(s) && Enabled(s, step)
    ensures var t := Next(cfg, s, step);
            Quiet(t) && t.queue == s.queue && t.executed == s.executed
  {
  }

  /** Whatever happens to a quiet pool, what is in its queue stays there and nothing runs any more. */
  lemma {:induction false} QuietForever(cfg: Config, s: State, steps: seq<Step>, t: State)
    requires Quiet(s) && IsRun(cfg, s, steps, t)
    ensures t.queue == s.queue && t.executed == s.executed
    decreases |steps|
  {
    if steps != [] {
      QuietStays(cfg, s, steps[0]);
      QuietForever(cfg, Next(cfg, s, steps[0]), steps[1..], t);
    }
  }

  const SINGLE: Config := Config(1, 1, 1, Block)

  const LATE: Task := Task(0, 1)

  /** The states of the race: one worker, one caller, and how far stop has come. */
  function Race(worker: Worker, producer: Producer, stop: StopPhase): State {
    State(multiset{}, [worker], [producer], stop, 0, 0, 0, 0, 0, 1, multiset{}, multiset{}, multiset{}, multiset{})
  }

  /** The last state of the race: the task is in the queue, and its caller has been told so. */
  const STRANDED: State :=
    Race(Exited, Idle, ProducersNotified).(
      queue := multiset{LATE}, total := 1, late := multiset{LATE}, orphans := multiset{LATE})

  lemma RaceSteps()
    ensures Next(SINGLE, Initial(SINGLE, 1), Call(0, 1, false)) == Race(Ready, Submitting(LATE, false), Running)
    ensures AfterStop(Race(Ready, Submitting(LATE, false), Running)) == Race(Ready, Submitting(LATE, false), FlagSet)
    ensures AfterStop(Race(Ready, Submitting(LATE, false), FlagSet))
         == Race(Ready, Submitting(LATE, false), WorkersNotified)
    ensures AfterStop(Race(Ready, Submitting(LATE, false), WorkersNotified))
         == Race(Ready, Submitting(LATE, false), ProducersNotified)
    ensures AfterTake(Race(Ready, Submitting(LATE, false), ProducersNotified), 0, LATE)
         == Race(Exited, Submitting(LATE, false), ProducersNotified)
  {
    assert Initial(SINGLE, 1).workers == [Ready] && Initial(SINGLE, 1).producers == [Idle];
    assert AllWorkersWoken([Ready]) == [Ready];
    assert AllProducersWoken([Submitting(LATE, false)]) == [Submitting(LATE, false)];
  }

  lemma LateSubmit()
    ensures var s := Race(Exited, Submitting(LATE, false), ProducersNotified);
            Enabled(s, Submit(0, 0)) && AfterSubmit(SINGLE, s, 0, 0) == STRANDED
  {
    var s := Race(Exited, Submitting(LATE, false), ProducersNotified);
    assert NoneLeft(s.workers);
    assert WithProducer(s, 0, Idle).producers == [Idle];
    assert multiset{} + multiset{LATE} == multiset{LATE};
  }

  lemma LastSteps()
    ensures IsRun(SINGLE, Race(Ready, Submitting(LATE, false), WorkersNotified),
                  [Stop] + ([Take(0, LATE)] + ([Submit(0, 0)] + [])), STRANDED)
  {
    var p := Submitting(LATE, false);
    RaceSteps();
    LateSubmit();
    RunOne(SINGLE, Race(Exited, p, ProducersNotified), Submit(0, 0), [], STRANDED);
    RunOne(SINGLE, Race(Ready, p, ProducersNotified), Take(0, LATE), [Submit(0, 0)] + [], STRANDED);
    RunOne(SINGLE, Race(Ready, p, WorkersNotified), Stop, [Take(0, LATE)] + ([Submit(0, 0)] + []), STRANDED);
  }

  lemma StrandedIsReachable()
    ensures Reachable(SINGLE, STRANDED)
  {
    var p, steps := Submitting(LATE, false), [Stop] + ([Take(0, LATE)] + ([Submit(0, 0)] + []));
    RaceSteps();
    LastSteps();
    RunOne(SINGLE, Race(Ready, p, FlagSet), Stop, steps, STRANDED);
    RunOne(SINGLE, Race(Ready, p, Running), Stop, [Stop] + steps, STRANDED);
    RunOne(SINGLE, Initial(SINGLE, 1), Call(0, 1, false), [Stop] + ([Stop] + steps), STRANDED);
  }

  /**
   * A task can be accepted and never run: its caller saw the pool running, then stop was called
   * and the worker exited. Whatever happens from then on, the task does not run.
   */
  lemma RacingTaskIsLost(steps: seq<Step>, t: State)
    requires IsRun(SINGLE, STRANDED, steps, t)
    ensures Reachable(SINGLE, STRANDED) && LATE in STRANDED.Accepted()
    ensures t.executed[LATE] == 0 && LATE in t.queue
  {
    StrandedIsReachable();
    QuietForever(SINGLE, STRANDED, steps, t);
  }

  lemma RunOne(cfg: Config, s: State, step: Step, rest: seq<Step>, t: State)
    requires Enabled(s, step) && IsRun(cfg, Next(cfg, s, step), rest, t)
    ensures IsRun(cfg, s, [step] + rest, t)
  {
    assert ([step] + rest)[1..] == rest;
  }
}
