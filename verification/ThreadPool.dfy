/**
 * ThreadPoolV2 as a state machine. Each step is one section under the pool's mutex or one
 * atomic access outside it, taken by a worker, a caller of `enqueue`/`try_enqueue`, or the
 * thread in `stop`; any step may follow any other, and sleepers may wake without a notice.
 */
module ThreadPool {
  datatype Policy = Block | Discard

  datatype Config = Config(minThreads: nat, maxThreads: nat, maxQueueSize: nat, policy: Policy)

  /** Every submitted task has its own `id`; a larger `priority` runs earlier. */
  datatype Task = Task(id: nat, priority: nat)

  datatype Worker =
    | Ready               // about to take the lock at the top of the loop
    | Asleep              // waiting on cv_task_
    | Woken               // woken up, has yet to take the lock and look again
    | Holding(task: Task) // popped a task and counted itself active
    | Ran                 // the task has returned
    | Inactive            // no longer counted as active
    | Counted             // counted the task as completed, has yet to notify cv_done_
    | Exited

  datatype Producer =
    | Idle
    | Submitting(task: Task, trying: bool) // saw the pool running, has yet to take the lock
    | Blocked(task: Task)                  // waiting on cv_done_
    | Unblocked(task: Task)                // woken up, has yet to take the lock and look again

  datatype StopPhase = Running | FlagSet | WorkersNotified | ProducersNotified | Joined | Cleared

  datatype State = State(
    queue: multiset<Task>,
    workers: seq<Worker>,
    producers: seq<Producer>,
    stop: StopPhase,
    active: nat,
    total: nat,
    completed: nat,
    rejected: nat,
    turnedAway: nat,          // history: calls that found the pool stopping when they could have pushed
    nextId: nat,
    early: multiset<Task>,    // history: tasks accepted while the pool was running
    late: multiset<Task>,     // history: tasks accepted after the stop flag was set
    orphans: multiset<Task>,  // history: tasks accepted when no worker was left, and none started since
    executed: multiset<Task>) // history: tasks that have run
  {
    predicate Stopped() {
      stop != Running
    }

    function Accepted(): multiset<Task> {
      early + late
    }
  }

  datatype Step =
    | Call(p: nat, priority: nat, trying: bool) // the test of stopped_ outside the lock
    | Submit(p: nat, woken: nat)                // the locked section of enqueue or try_enqueue
    | Recheck(p: nat, woken: nat)               // a woken producer looks at the queue again
    | WakeProducer(p: nat)                      // without a notice
    | Take(w: nat, task: Task)                  // the locked section of the worker loop
    | Advance(w: nat)                           // what a worker does outside the lock
    | WakeWorker(w: nat)                        // without a notice
    | Stop                                      // the next action of the thread in stop()

  // ---------- how many threads are in each phase ----------

  predicate IsActive(w: Worker) {
    w.Holding? || w.Ran?
  }

  /** Between popping a task and the notification that follows it. */
  predicate IsBusy(w: Worker) {
    IsActive(w) || w.Inactive? || w.Counted?
  }

  /** How many workers are in each phase, and how many hold a given task. */
  datatype Tallies = Tallies(
    size: nat, asleep: nat, woken: nat, active: nat, inactive: nat, busy: nat, exited: nat, holding: nat)

  function One(b: bool): nat {
    if b then 1 else 0
  }

  /** The tallies of a single worker. */
  function Share(w: Worker, u: Task): Tallies {
    Tallies(1, One(w.Asleep?), One(w.Woken?), One(IsActive(w)), One(w.Inactive?), One(IsBusy(w)), One(w.Exited?),
            One(w == Holding(u)))
  }

  function Add(a: Tallies, b: Tallies): Tallies {
    Tallies(a.size + b.size, a.asleep + b.asleep, a.woken + b.woken, a.active + b.active,
            a.inactive + b.inactive, a.busy + b.busy, a.exited + b.exited, a.holding + b.holding)
  }

  function TalliesOf(ws: seq<Worker>, u: Task): Tallies {
    if ws == [] then Tallies(0, 0, 0, 0, 0, 0, 0, 0) else Add(Share(ws[0], u), TalliesOf(ws[1..], u))
  }

  /** How many producers sleep, and how many still have a given task to hand in. */
  datatype Waiting = Waiting(blocked: nat, pending: nat)

  predicate HasTask(p: Producer, u: Task) {
    !p.Idle? && p.task == u
  }

  function WaitingOf(ps: seq<Producer>, u: Task): Waiting {
    if ps == [] then Waiting(0, 0)
    else
      var rest := WaitingOf(ps[1..], u);
      Waiting(One(ps[0].Blocked?) + rest.blocked, One(HasTask(ps[0], u)) + rest.pending)
  }

  /** No worker is left: all have exited, or there is none. */
  predicate NoneLeft(ws: seq<Worker>) {
    forall w :: w in ws ==> w.Exited?
  }

  // ---------- what a step does ----------

  predicate IsFull(cfg: Config, s: State) {
    |s.queue| >= cfg.maxQueueSize
  }

  function WithWorker(s: State, w: nat, x: Worker): State
    requires w < |s.workers|
  {
    s.(workers := s.workers[w := x])
  }

  function WithProducer(s: State, p: nat, x: Producer): State
    requires p < |s.producers|
  {
    s.(producers := s.producers[p := x])
  }

  function Grown(cfg: Config, s: State, mayGrow: bool): seq<Worker> {
    if mayGrow && s.active >= |s.workers| && |s.workers| < cfg.maxThreads then s.workers + [Ready] else s.workers
  }

  /** notify_one: some sleeping worker, if there is one, is woken. */
  function NotifyOne(ws: seq<Worker>, woken: nat): seq<Worker> {
    if woken < |ws| && ws[woken].Asleep? then ws[woken := Woken] else ws
  }

  predicate ChoosesSleeper(ws: seq<Worker>, woken: nat) {
    (exists w :: w in ws && w.Asleep?) ==> woken < |ws| && ws[woken].Asleep?
  }

  function Pushed(cfg: Config, s: State, task: Task, mayGrow: bool, woken: nat): State {
    var one, grown := multiset{task}, Grown(cfg, s, mayGrow);
    s.(queue := s.queue + one,
       total := s.total + 1,
       workers := NotifyOne(grown, woken),
       early := if s.Stopped() then s.early else s.early + one,
       late := if s.Stopped() then s.late + one else s.late,
       orphans := if |grown| > |s.workers| then multiset{}
                  else if NoneLeft(s.workers) then s.orphans + one
                  else s.orphans)
  }

  function AllWorkersWoken(ws: seq<Worker>): (r: seq<Worker>)
    ensures |r| == |ws|
  {
    seq(|ws|, i requires 0 <= i < |ws| => if ws[i].Asleep? then Woken else ws[i])
  }

  function AllProducersWoken(ps: seq<Producer>): (r: seq<Producer>)
    ensures |r| == |ps|
  {
    seq(|ps|, i requires 0 <= i < |ps| => if ps[i].Blocked? then Unblocked(ps[i].task) else ps[i])
  }

  predicate Enabled(s: State, step: Step) {
    match step
    case Call(p, _, _) => p < |s.producers| && s.producers[p].Idle?
    case Submit(p, woken) => p < |s.producers| && s.producers[p].Submitting? && ChoosesSleeper(s.workers, woken)
    case Recheck(p, woken) => p < |s.producers| && s.producers[p].Unblocked? && ChoosesSleeper(s.workers, woken)
    case WakeProducer(p) => p < |s.producers| && s.producers[p].Blocked?
    case Take(w, task) =>
      && w < |s.workers| && (s.workers[w].Ready? || s.workers[w].Woken?)
      && (s.queue != multiset{} ==> task in s.queue && forall t :: t in s.queue ==> t.priority <= task.priority)
    case Advance(w) => w < |s.workers| && IsBusy(s.workers[w])
    case WakeWorker(w) => w < |s.workers| && s.workers[w].Asleep?
    case Stop =>
      && s.stop != Cleared
      && (s.stop == ProducersNotified || s.stop == Joined ==> NoneLeft(s.workers))
  }

  function AfterSubmit(cfg: Config, s: State, p: nat, woken: nat): State
    requires p < |s.producers| && s.producers[p].Submitting?
  {
    var task, trying := s.producers[p].task, s.producers[p].trying;
    if !IsFull(cfg, s) then Pushed(cfg, WithProducer(s, p, Idle), task, !trying, woken)
    else if trying || cfg.policy.Discard? then WithProducer(s, p, Idle).(rejected := s.rejected + 1)
    else if s.Stopped() then WithProducer(s, p, Idle).(turnedAway := s.turnedAway + 1)
    else WithProducer(s, p, Blocked(task))
  }

  function AfterRecheck(cfg: Config, s: State, p: nat, woken: nat): State
    requires p < |s.producers| && s.producers[p].Unblocked?
  {
    var task := s.producers[p].task;
    if s.Stopped() then WithProducer(s, p, Idle).(turnedAway := s.turnedAway + 1)
    else if IsFull(cfg, s) then WithProducer(s, p, Blocked(task))
    else Pushed(cfg, WithProducer(s, p, Idle), task, true, woken)
  }

  function AfterTake(s: State, w: nat, task: Task): State
    requires w < |s.workers|
  {
    if s.queue == multiset{} then WithWorker(s, w, if s.Stopped() then Exited else Asleep)
    else WithWorker(s, w, Holding(task)).(queue := s.queue - multiset{task}, active := s.active + 1)
  }

  function AfterAdvance(s: State, w: nat): State
    requires w < |s.workers|
  {
    match s.workers[w]
    case Holding(task) => WithWorker(s, w, Ran).(executed := s.executed + multiset{task})
    case Ran => WithWorker(s, w, Inactive).(active := if s.active > 0 then s.active - 1 else 0)
    case Inactive => WithWorker(s, w, Counted).(completed := s.completed + 1)
    case Counted => WithWorker(s, w, Ready).(producers := AllProducersWoken(s.producers))
    case _ => s
  }

  function AfterStop(s: State): State {
    match s.stop
    case Running => s.(stop := FlagSet)
    case FlagSet => s.(stop := WorkersNotified, workers := AllWorkersWoken(s.workers))
    case WorkersNotified => s.(stop := ProducersNotified, producers := AllProducersWoken(s.producers))
    case ProducersNotified => s.(stop := Joined)
    case _ => s.(stop := Cleared, workers := [])
  }

  function Next(cfg: Config, s: State, step: Step): State
    requires Enabled(s, step)
  {
    match step
    case Call(p, priority, trying) =>
      if s.Stopped() then s
      else WithProducer(s, p, Submitting(Task(s.nextId, priority), trying)).(nextId := s.nextId + 1)
    case Submit(p, woken) => AfterSubmit(cfg, s, p, woken)
    case Recheck(p, woken) => AfterRecheck(cfg, s, p, woken)
    case WakeProducer(p) => WithProducer(s, p, Unblocked(s.producers[p].task))
    case Take(w, task) => AfterTake(s, w, task)
    case Advance(w) => AfterAdvance(s, w)
    case WakeWorker(w) => WithWorker(s, w, Woken)
    case Stop => AfterStop(s)
  }

  /** A new pool, and any number of threads that may submit tasks to it. */
  function Initial(cfg: Config, callers: nat): State {
    State(multiset{}, seq(cfg.minThreads, _ => Ready), seq(callers, _ => Idle), Running,
          0, 0, 0, 0, 0, 0, multiset{}, multiset{}, multiset{}, multiset{})
  }

  ghost predicate IsRun(cfg: Config, s: State, steps: seq<Step>, t: State)
    decreases |steps|
  {
    if steps == [] then s == t
    else Enabled(s, steps[0]) && IsRun(cfg, Next(cfg, s, steps[0]), steps[1..], t)
  }

  ghost predicate Reachable(cfg: Config, s: State) {
    exists callers, steps :: IsRun(cfg, Initial(cfg, callers), steps, s)
  }

  // ---------- the invariant ----------

  /** Queued tasks never outnumber the woken workers while some worker sleeps. */
  ghost predicate WakeInv(s: State, k: Tallies) {
    k.asleep > 0 ==> |s.queue| <= k.woken
  }

  /** A producer sleeping beside a free slot has a notification coming from a worker. */
  ghost predicate RoomInv(cfg: Config, s: State, k: Tallies, q: Waiting) {
    q.blocked > 0 && !IsFull(cfg, s) ==> k.busy > 0
  }

  /** Every accepted task is queued, running, between the two counters, or completed. */
  ghost predicate CountInv(s: State, k: Tallies) {
    s.active == k.active && s.total == |s.queue| + k.active + k.inactive + s.completed
  }

  ghost predicate BoundInv(cfg: Config, s: State, k: Tallies) {
    && |s.queue| <= cfg.maxQueueSize
    && (s.stop != Cleared ==> cfg.minThreads <= k.size)
    && k.size <= (if cfg.minThreads <= cfg.maxThreads then cfg.maxThreads else cfg.minThreads)
  }

  /** Task `u`, if accepted, is queued, held or executed; it is never in two places. */
  ghost predicate TaskInv(s: State, u: Task, k: Tallies, q: Waiting) {
    && s.Accepted()[u] == s.queue[u] + k.holding + s.executed[u]
    && s.Accepted()[u] + q.pending <= One(u.id < s.nextId)
  }

  predicate NoneLeftIn(k: Tallies) {
    k.exited == k.size
  }

  ghost predicate StopInv(cfg: Config, s: State, k: Tallies, q: Waiting) {
    && (k.exited > 0 ==> s.Stopped())
    && (s.stop in {WorkersNotified, ProducersNotified, Joined, Cleared} ==> k.asleep == 0)
    && (s.stop in {ProducersNotified, Joined, Cleared} ==> q.blocked == 0)
    && (s.stop == Joined && cfg.minThreads > 0 ==> NoneLeftIn(k))
    && (NoneLeftIn(k) && k.size > 0 && cfg.maxQueueSize > 0 ==> q.blocked == 0)
  }

  /** What is left in the queue when no worker is left is exactly what was accepted since that is so. */
  ghost predicate OrphanInv(cfg: Config, s: State, u: Task, k: Tallies) {
    && s.orphans[u] == (if NoneLeftIn(k) then s.queue[u] else 0)
    && (cfg.minThreads > 0 || k.size > 0 ==> s.orphans[u] <= s.late[u])
    && (!s.Stopped() ==> s.late[u] == 0)
  }

  /** The invariant, as far as task `u` is concerned. */
  ghost predicate CoreInv(cfg: Config, s: State, u: Task, k: Tallies, q: Waiting) {
    && WakeInv(s, k) && RoomInv(cfg, s, k, q) && CountInv(s, k) && BoundInv(cfg, s, k)
    && TaskInv(s, u, k, q) && StopInv(cfg, s, k, q) && OrphanInv(cfg, s, u, k)
  }

  ghost predicate InvFor(cfg: Config, s: State, u: Task) {
    CoreInv(cfg, s, u, TalliesOf(s.workers, u), WaitingOf(s.producers, u))
  }

  ghost predicate Inv(cfg: Config, s: State) {
    forall u :: InvFor(cfg, s, u)
  }
}
