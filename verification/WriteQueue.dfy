/**
 * The write queue of a session: senders on any thread push under a lock, a sender that found
 * the queue empty then posts a call of do_write, and every completed write calls do_write again.
 * Several threads serve the I/O context, so these calls interleave too; a message counts as in
 * flight from when it is popped, which is before it is handed to the socket.
 */
module WriteQueue {
  type Data(!new)

  datatype Finished = Finished(data: Data, ok: bool)

  datatype State = State(
    queue: seq<Data>,
    pushed: seq<Data>,         // everything ever pushed
    popped: seq<Data>,         // everything ever taken out, in that order
    aboutToPost: nat,          // senders past the lock that still owe a post
    posted: nat,               // calls of do_write waiting for a thread of the I/O context
    inFlight: seq<Data>,       // popped and not finished, in the order of popping
    finished: seq<Finished>,   // in the order of completion
    closed: bool)

  datatype Step =
    | Push(data: Data)
    | Post
    | RunPosted
    | Complete(which: nat, ok: bool)

  const INITIAL := State([], [], [], 0, 0, [], [], false)

  predicate Enabled(s: State, step: Step) {
    match step
    case Push(_) => true
    case Post => s.aboutToPost > 0
    case RunPosted => s.posted > 0
    case Complete(which, _) => which < |s.inFlight|
  }

  /** do_write: the front of the queue leaves it before it is written. */
  function DoWrite(s: State): State {
    if s.queue == [] then s
    else s.(queue := s.queue[1..], popped := s.popped + [s.queue[0]], inFlight := s.inFlight + [s.queue[0]])
  }

  function AfterPush(s: State, data: Data): State {
    s.(queue := s.queue + [data], pushed := s.pushed + [data],
       aboutToPost := if s.queue == [] then s.aboutToPost + 1 else s.aboutToPost)
  }

  /** Taking a finished write out of those in flight, before do_write goes on. */
  function Taken(s: State, which: nat, ok: bool): State
    requires which < |s.inFlight|
  {
    s.(inFlight := s.inFlight[..which] + s.inFlight[which + 1..],
       finished := s.finished + [Finished(s.inFlight[which], ok)])
  }

  function AfterComplete(s: State, which: nat, ok: bool): State
    requires which < |s.inFlight|
  {
    var done := Taken(s, which, ok);
    if ok then DoWrite(done) else done.(closed := true)
  }

  function Next(s: State, step: Step): State
    requires Enabled(s, step)
  {
    match step
    case Push(data) => AfterPush(s, data)
    case Post => s.(aboutToPost := s.aboutToPost - 1, posted := s.posted + 1)
    case RunPosted => DoWrite(s.(posted := s.posted - 1))
    case Complete(which, ok) => AfterComplete(s, which, ok)
  }

  predicate IsRun(s: State, steps: seq<Step>)
    decreases |steps|
  {
    steps == [] || (Enabled(s, steps[0]) && IsRun(Next(s, steps[0]), steps[1..]))
  }

  function After(s: State, steps: seq<Step>): State
    requires IsRun(s, steps)
    decreases |steps|
  {
    if steps == [] then s else After(Next(s, steps[0]), steps[1..])
  }

  /** What a call of do_write does to the state it finds. */
  ghost predicate WritesNext(s: State, t: State) {
    if s.queue == [] then t == s
    else
      && s.queue == [s.queue[0]] + t.queue && t.popped == s.popped + [s.queue[0]]
      && t.inFlight == s.inFlight + [s.queue[0]]
      && t == s.(queue := t.queue, popped := t.popped, inFlight := t.inFlight)
  }

  /**
   * A failed write closes the session and leaves the queue alone; a successful one goes on with
   * the front of the queue. Either way the write, and no other, is finished.
   */
  lemma CompleteExactly(s: State, which: nat, ok: bool)
    requires Enabled(s, Complete(which, ok))
    ensures var done := s.(inFlight := s.inFlight[..which] + s.inFlight[which + 1..],
                           finished := s.finished + [Finished(s.inFlight[which], ok)]);
            if ok then WritesNext(done, Next(s, Complete(which, ok)))
            else Next(s, Complete(which, ok)) == done.(closed := true)
  {
  }

  /** A push puts its message last; only the sender that found the queue empty owes a post, which posts one call. */
  lemma SendExactly(s: State, data: Data)
    ensures var t := Next(s, Push(data));
            && t.queue == s.queue + [data] && t.pushed == s.pushed + [data]
            && t.aboutToPost == s.aboutToPost + (if s.queue == [] then 1 else 0)
            && t == s.(queue := t.queue, pushed := t.pushed, aboutToPost := t.aboutToPost)
    ensures s.aboutToPost > 0 ==> Next(s, Post) == s.(aboutToPost := s.aboutToPost - 1, posted := s.posted + 1)
    ensures s.posted > 0 ==> WritesNext(s.(posted := s.posted - 1), Next(s, RunPosted))
  {
  }

  // ---------- order, and progress ----------

  /** How many calls of do_write are coming: each one owed, posted or following a write in flight. */
  function Tokens(s: State): nat {
    s.aboutToPost + s.posted + |s.inFlight|
  }

  function Contents(finished: seq<Finished>): seq<Data> {
    seq(|finished|, i requires 0 <= i < |finished| => finished[i].data)
  }

  predicate AllOk(finished: seq<Finished>) {
    forall i :: 0 <= i < |finished| ==> finished[i].ok
  }

  ghost predicate Inv(s: State) {
    && s.popped + s.queue == s.pushed
    && multiset(s.popped) == multiset(s.inFlight) + multiset(Contents(s.finished))
    && (s.closed <==> !AllOk(s.finished))
    && (s.queue != [] && !s.closed ==> Tokens(s) > 0)
  }

  lemma DoWriteKeeps(s: State)
    requires Inv(s.(aboutToPost := s.aboutToPost + 1))
    ensures Inv(DoWrite(s))
  {
    if s.queue != [] {
      assert s.popped + s.queue == s.popped + [s.queue[0]] + s.queue[1..];
    }
  }

  lemma TakeOne(f: seq<Data>, which: nat)
    requires which < |f|
    ensures multiset(f) == multiset(f[..which] + f[which + 1..]) + multiset{f[which]}
  {
    assert f == f[..which] + [f[which]] + f[which + 1..];
  }

  lemma OneMoreFinished(finished: seq<Finished>, one: Finished)
    ensures Contents(finished + [one]) == Contents(finished) + [one.data]
    ensures AllOk(finished + [one]) <==> AllOk(finished) && one.ok
  {
    var longer := finished + [one];
    assert longer[|finished|] == one;
    assert forall i :: 0 <= i < |finished| ==> longer[i] == finished[i];
  }

  lemma TakenCounts(s: State, which: nat, ok: bool)
    requires Inv(s) && which < |s.inFlight|
    ensures var t := Taken(s, which, ok);
            && multiset(t.popped) == multiset(t.inFlight) + multiset(Contents(t.finished))
            && (AllOk(t.finished) <==> AllOk(s.finished) && ok)
  {
    TakeOne(s.inFlight, which);
    OneMoreFinished(s.finished, Finished(s.inFlight[which], ok));
  }

  lemma CompleteKeeps(s: State, which: nat, ok: bool)
    requires Inv(s) && which < |s.inFlight|
    ensures Inv(AfterComplete(s, which, ok))
  {
    TakenCounts(s, which, ok);
    if ok {
      DoWriteKeeps(Taken(s, which, ok));
    }
  }

  lemma StepKeeps(s: State, step: Step)
    requires Inv(s) && Enabled(s, step)
    ensures Inv(Next(s, step))
  {
    match step
    case Push(data) =>
      assert s.popped + (s.queue + [data]) == s.pushed + [data];
    case Post =>
    case RunPosted =>
      DoWriteKeeps(s.(posted := s.posted - 1));
    case Complete(which, ok) =>
      CompleteKeeps(s, which, ok);
  }

  lemma {:induction false} RunKeeps(s: State, steps: seq<Step>)
    requires Inv(s) && IsRun(s, steps)
    ensures Inv(After(s, steps))
    decreases |steps|
  {
    if steps != [] {
      StepKeeps(s, steps[0]);
      RunKeeps(Next(s, steps[0]), steps[1..]);
    }
  }

  /** Whatever the interleaving, messages leave the queue in the order they entered it, none lost or doubled. */
  lemma QueueKeepsOrder(steps: seq<Step>)
    requires IsRun(INITIAL, steps)
    ensures var s := After(INITIAL, steps);
            && s.popped + s.queue == s.pushed
            && multiset(s.popped) == multiset(s.inFlight) + multiset(Contents(s.finished))
  {
    RunKeeps(INITIAL, steps);
  }

  /** While no write has failed, a queue that holds something is going to be written. */
  lemma QueueIsNeverForgotten(steps: seq<Step>)
    requires IsRun(INITIAL, steps)
    ensures var s := After(INITIAL, steps);
            s.queue != [] && AllOk(s.finished) ==> Tokens(s) > 0
  {
    RunKeeps(INITIAL, steps);
  }

  // ---------- everything is written in the end ----------

  /** An upper bound on the steps left once no more is pushed. */
  function Work(s: State): nat {
    2 * |s.queue| + 3 * s.aboutToPost + 2 * s.posted + |s.inFlight|
  }

  lemma {:induction false} WorkRunsOut(s: State, steps: seq<Step>)
    requires IsRun(s, steps) && forall step :: step in steps ==> !step.Push?
    ensures |steps| <= Work(s)
    decreases |steps|
  {
    if steps != [] {
      assert steps[0] in steps;
      WorkRunsOut(Next(s, steps[0]), steps[1..]);
    }
  }

  /**
   * Once pushing stops every run ends, and a run that cannot go on has written everything
   * exactly once, unless a write failed.
   */
  lemma EverythingIsWritten(steps: seq<Step>, more: seq<Step>)
    requires IsRun(INITIAL, steps) && IsRun(After(INITIAL, steps), more)
    requires forall step :: step in more ==> !step.Push?
    ensures |more| <= Work(After(INITIAL, steps))
    ensures var s := After(After(INITIAL, steps), more);
            !s.closed && (forall step :: Enabled(s, step) ==> step.Push?) ==>
              && s.queue == [] && multiset(Contents(s.finished)) == multiset(s.pushed)
  {
    WorkRunsOut(After(INITIAL, steps), more);
    RunKeeps(INITIAL, steps);
    RunKeeps(After(INITIAL, steps), more);
    var s := After(After(INITIAL, steps), more);
    if forall step :: Enabled(s, step) ==> step.Push? {
      assert !Enabled(s, Post) && !Enabled(s, RunPosted) && !Enabled(s, Complete(0, true));
      if !s.closed {
        assert s.queue == [] && s.inFlight == [];
        assert s.popped + [] == s.popped;
      }
    }
  }

  // ---------- when there is one write at a time ----------

  /** There is at most one write in flight before, between and after the steps. */
  predicate OneWrite(s: State, steps: seq<Step>)
    requires IsRun(s, steps)
    decreases |steps|
  {
    |s.inFlight| <= 1 && (steps == [] || OneWrite(Next(s, steps[0]), steps[1..]))
  }

  /** A posted call of do_write that pops beside a write in flight. */
  predicate Overlaps(s: State, step: Step) {
    step.RunPosted? && s.queue != [] && s.inFlight != []
  }

  predicate NoneOverlaps(s: State, steps: seq<Step>)
    requires IsRun(s, steps)
    decreases |steps|
  {
    steps == [] || (!Overlaps(s, steps[0]) && NoneOverlaps(Next(s, steps[0]), steps[1..]))
  }

  /**
   * There is at most one write in flight through a whole run if and only if no posted call of
   * do_write finds both something in the queue and a write in flight.
   */
  lemma {:induction false} OneWriteExactly(s: State, steps: seq<Step>)
    requires |s.inFlight| <= 1 && IsRun(s, steps)
    ensures OneWrite(s, steps) <==> NoneOverlaps(s, steps)
    decreases |steps|
  {
    if steps != [] {
      var next := Next(s, steps[0]);
      assert |next.inFlight| <= 1 <==> !Overlaps(s, steps[0]);
      if |next.inFlight| <= 1 {
        OneWriteExactly(next, steps[1..]);
      }
    }
  }

  // ---------- when completions keep the order ----------

  /** The push does not start a second chain of writes. */
  predicate Calm(s: State, step: Step) {
    step.Push? ==> s.queue != [] || Tokens(s) == 0
  }

  predicate AllCalm(s: State, steps: seq<Step>)
    requires IsRun(s, steps)
    decreases |steps|
  {
    steps == [] || (Calm(s, steps[0]) && AllCalm(Next(s, steps[0]), steps[1..]))
  }

  predicate OneChain(s: State, steps: seq<Step>)
    requires IsRun(s, steps)
    decreases |steps|
  {
    Tokens(s) <= 1 && (steps == [] || OneChain(Next(s, steps[0]), steps[1..]))
  }

  /** A step leaves at most one chain of writes exactly when it is calm. */
  lemma StepCalm(s: State, step: Step)
    requires Tokens(s) <= 1 && Enabled(s, step)
    ensures Tokens(Next(s, step)) <= 1 <==> Calm(s, step)
  {
  }

  /**
   * At most one call of do_write is owed, posted or under way through a whole run if and only if
   * every push that met an empty queue met no such call either.
   */
  lemma {:induction false} OneChainExactly(s: State, steps: seq<Step>)
    requires Tokens(s) <= 1 && IsRun(s, steps)
    ensures OneChain(s, steps) <==> AllCalm(s, steps)
    decreases |steps|
  {
    if steps != [] {
      StepCalm(s, steps[0]);
      if Calm(s, steps[0]) {
        OneChainExactly(Next(s, steps[0]), steps[1..]);
      }
    }
  }

  lemma {:induction false} OneChainKeepsOrder(s: State, steps: seq<Step>)
    requires IsRun(s, steps) && OneChain(s, steps)
    requires Contents(s.finished) + s.inFlight == s.popped
    ensures Contents(After(s, steps).finished) + After(s, steps).inFlight == After(s, steps).popped
    decreases |steps|
  {
    if steps != [] {
      var next := Next(s, steps[0]);
      if steps[0].Complete? {
        assert Contents(s.finished + [Finished(s.inFlight[0], steps[0].ok)]) == Contents(s.finished) + s.inFlight;
      }
      assert Contents(next.finished) + next.inFlight == next.popped;
      OneChainKeepsOrder(next, steps[1..]);
    }
  }

  /** A calm run completes its writes in the order of the pushes. */
  lemma CalmRunsKeepOrder(steps: seq<Step>)
    requires IsRun(INITIAL, steps) && AllCalm(INITIAL, steps)
    ensures Contents(After(INITIAL, steps).finished) <= After(INITIAL, steps).pushed
  {
    OneChainExactly(INITIAL, steps);
    OneChainKeepsOrder(INITIAL, steps);
    RunKeeps(INITIAL, steps);
  }

  /** A run that begins with a given step. */
  lemma Begin(s: State, step: Step, rest: seq<Step>)
    requires Enabled(s, step) && IsRun(Next(s, step), rest)
    ensures IsRun(s, [step] + rest) && After(s, [step] + rest) == After(Next(s, step), rest)
  {
    assert ([step] + rest)[1..] == rest;
  }

  lemma SendAndWrite(s: State, data: Data)
    requires s.queue == [] && s.aboutToPost == 0 && s.posted == 0
    ensures IsRun(s, [Push(data), Post, RunPosted])
    ensures After(s, [Push(data), Post, RunPosted])
         == s.(pushed := s.pushed + [data], popped := s.popped + [data], inFlight := s.inFlight + [data])
  {
    var s1 := Next(s, Push(data));
    var s2 := Next(s1, Post);
    Begin(s2, RunPosted, []);
    Begin(s1, Post, [RunPosted]);
    Begin(s, Push(data), [Post, RunPosted]);
    assert [Push(data)] + ([Post] + [RunPosted]) == [Push(data), Post, RunPosted];
    assert [Post] + [RunPosted] == [Post, RunPosted];
  }

  lemma {:induction false} RunThen(s: State, a: seq<Step>, b: seq<Step>)
    requires IsRun(s, a) && IsRun(After(s, a), b)
    ensures IsRun(s, a + b) && After(s, a + b) == After(After(s, a), b)
    decreases |a|
  {
    if a == [] {
      assert a + b == b;
    } else {
      assert (a + b)[0] == a[0] && (a + b)[1..] == a[1..] + b;
      RunThen(Next(s, a[0]), a[1..], b);
    }
  }

  /** What it takes to turn a call of do_write that is owed or posted into a write. */
  function Launch(s: State): seq<Step> {
    if s.posted > 0 then [RunPosted] else [Post, RunPosted]
  }

  lemma LaunchWrites(s: State)
    requires s.aboutToPost + s.posted > 0 && s.queue != []
    ensures IsRun(s, Launch(s))
    ensures var t := After(s, Launch(s));
            && |t.inFlight| == |s.inFlight| + 1 && |t.queue| == |s.queue| - 1
            && t.aboutToPost + t.posted == s.aboutToPost + s.posted - 1
  {
    if s.posted > 0 {
      Begin(s, RunPosted, []);
      assert [RunPosted] + [] == [RunPosted];
    } else {
      var posted := Next(s, Post);
      Begin(posted, RunPosted, []);
      Begin(s, Post, [RunPosted] + []);
      assert [Post] + ([RunPosted] + []) == [Post, RunPosted];
    }
  }

  lemma LaunchTwice(s: State)
    requires s.aboutToPost + s.posted >= 2 && |s.queue| >= 2
    ensures exists steps :: IsRun(s, steps) && |After(s, steps).inFlight| >= 2
  {
    LaunchWrites(s);
    var t := After(s, Launch(s));
    LaunchWrites(t);
    RunThen(s, Launch(s), Launch(t));
  }

  /** Every push that is not calm can be followed by two writes in flight. */
  lemma NotCalmCanOverlap(s: State, step: Step)
    requires !Calm(s, step)
    ensures exists steps :: IsRun(Next(s, step), steps) && |After(Next(s, step), steps).inFlight| >= 2
  {
    var t := Next(s, step);
    if s.inFlight != [] {
      LaunchWrites(t);
    } else {
      var again := Next(t, step);
      LaunchTwice(again);
      var steps :| IsRun(again, steps) && |After(again, steps).inFlight| >= 2;
      Begin(t, step, steps);
    }
  }

  /**
   * A push that meets an empty queue while a write is in flight: both writes are in flight, and
   * the second can finish first.
   */
  lemma TwoWritesInFlight(a: Data, b: Data)
    ensures var first, second := [Push(a), Post, RunPosted], [Push(b), Post, RunPosted];
            && IsRun(INITIAL, first) && IsRun(After(INITIAL, first), second)
            && var s := After(After(INITIAL, first), second);
               && s.inFlight == [a, b] && Enabled(s, Complete(1, true))
               && Contents(Next(s, Complete(1, true)).finished) == [b]
  {
    SendAndWrite(INITIAL, a);
    var s := After(INITIAL, [Push(a), Post, RunPosted]);
    SendAndWrite(s, b);
  }

  // ---------- in place ----------

  /** The part of a session that deals with writing. */
  class Session {
    var writeQueue: seq<Data>
    var closed: bool
    var inFlight: seq<Data>
    ghost var pushed: seq<Data>
    ghost var popped: seq<Data>
    ghost var aboutToPost: nat
    ghost var posted: nat
    ghost var finished: seq<Finished>

    ghost function Now(): State
      reads this
    {
      State(writeQueue, pushed, popped, aboutToPost, posted, inFlight, finished, closed)
    }

    constructor ()
      ensures Now() == INITIAL
    {
      writeQueue, closed, inFlight := [], false, [];
      pushed, popped, aboutToPost, posted, finished := [], [], 0, 0, [];
    }

    /** The locked section of send; the caller must post unless a write was in progress. */
    method Enqueue(data: Data) returns (writeInProgress: bool)
      modifies this
      ensures Now() == Next(old(Now()), Push(data))
      ensures writeInProgress <==> aboutToPost == old(aboutToPost)
    {
      writeInProgress := writeQueue != [];
      writeQueue := writeQueue + [data];
      pushed := pushed + [data];
      if !writeInProgress {
        aboutToPost := aboutToPost + 1;
      }
    }

    method Write()
      modifies this
      ensures Now() == DoWrite(old(Now()))
    {
      if writeQueue == [] {
        return;
      }
      var data := writeQueue[0];
      writeQueue := writeQueue[1..];
      popped := popped + [data];
      inFlight := inFlight + [data];
    }

    method OnWritten(which: nat, ok: bool)
      requires which < |inFlight|
      modifies this
      ensures Now() == Next(old(Now()), Complete(which, ok))
    {
      finished := finished + [Finished(inFlight[which], ok)];
      inFlight := inFlight[..which] + inFlight[which + 1..];
      if !ok {
        closed := true;
        return;
      }
      Write();
    }
  }
}
