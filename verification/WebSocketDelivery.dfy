/**
 * What a connection does over a whole run: the way TCP cuts the byte stream does not
 * matter, and what a well-behaved peer sends arrives once, in order and unaltered.
 */
module WebSocketDelivery {
  import opened Bytes
  import opened WebSocketFrames
  import opened WebSocketConnection

  // ---------- chunk independence ----------

  /** Equal results, except that a refused connection may keep a different unread buffer. */
  ghost predicate SameOutcome(a: Outcome, b: Outcome) {
    a.ok == b.ok && a.conn == b.conn.(buffer := a.conn.buffer) && (a.ok ==> a.conn.buffer == b.conn.buffer)
  }

  lemma FrameIgnoresBuffer(c: Conn, f: Frame, buffer: seq<Byte>)
    ensures AfterFrame(c.(buffer := buffer), f)
         == Outcome(AfterFrame(c, f).conn.(buffer := buffer), AfterFrame(c, f).ok)
  {
  }

  /** Bytes that arrive later pick up exactly where draining stopped. */
  lemma {:induction false} DrainContinues(c: Conn, more: seq<Byte>)
    ensures var o := Drain(c);
            var whole := Drain(c.(buffer := c.buffer + more));
            if o.ok then whole == Drain(o.conn.(buffer := o.conn.buffer + more))
            else SameOutcome(whole, o)
    decreases |c.buffer|
  {
    var longer := c.(buffer := c.buffer + more);
    if c.buffer != [] && !Decode(c.buffer).NeedMore? {
      DecodePrefixStable(c.buffer, more);
      if Decode(c.buffer).Complete? {
        var f, n := Decode(c.buffer).frame, Decode(c.buffer).consumed;
        DecodeConsumes(c.buffer);
        FrameIgnoresBuffer(c, f, longer.buffer);
        assert longer.buffer[n..] == c.buffer[n..] + more;
        if AfterFrame(c, f).ok {
          DrainContinues(AfterFrame(c, f).conn.(buffer := c.buffer[n..]), more);
        }
      }
    }
  }

  /** Two receives in a row, as the read loop makes them: it stops after the first refusal, which is final. */
  function ReceiveTwice(c: Conn, a: seq<Byte>, b: seq<Byte>): Outcome {
    var first := AfterReceive(c, a);
    if first.ok then AfterReceive(first.conn, b) else first
  }

  lemma ChunkIndependence(c: Conn, a: seq<Byte>, b: seq<Byte>)
    requires !(AfterReceive(c, a).ok && AfterReceive(c, a).conn.closed)
    ensures SameOutcome(ReceiveTwice(c, a, b), AfterReceive(c, a + b))
  {
    if !c.closed {
      var first := c.(buffer := c.buffer + a);
      assert first.buffer + b == c.buffer + (a + b);
      DrainContinues(first, b);
    }
  }

  /** On a link that never fails, only a refusal closes the connection. */
  lemma {:induction false} HealthyStaysOpen(c: Conn)
    requires c.link.Healthy? && !c.closed
    ensures Drain(c).conn.link.Healthy? && (Drain(c).ok ==> !Drain(c).conn.closed)
    decreases |c.buffer|
  {
    if c.buffer != [] && Decode(c.buffer).Complete? {
      DecodeConsumes(c.buffer);
      var o := AfterFrame(c, Decode(c.buffer).frame);
      if o.ok {
        HealthyStaysOpen(o.conn.(buffer := c.buffer[Decode(c.buffer).consumed..]));
      }
    }
  }

  /** The read loop of the server: receives chunk after chunk until refused or closed. */
  function ReadLoop(c: Conn, chunks: seq<seq<Byte>>): Outcome
    decreases |chunks|
  {
    if chunks == [] || c.closed then Outcome(c, true)
    else
      var o := AfterReceive(c, chunks[0]);
      if o.ok then ReadLoop(o.conn, chunks[1..]) else o
  }

  /** However the stream is cut, the result is that of receiving it in one piece. */
  lemma {:induction false} AnyChunking(c: Conn, chunks: seq<seq<Byte>>)
    requires c.link.Healthy? && !c.closed && chunks != []
    ensures SameOutcome(ReadLoop(c, chunks), AfterReceive(c, Concat(chunks)))
    decreases |chunks|
  {
    var a, rest := chunks[0], chunks[1..];
    var first := AfterReceive(c, a);
    HealthyStaysOpen(c.(buffer := c.buffer + a));
    ChunkIndependence(c, a, Concat(rest));
    if rest == [] {
      assert Concat(chunks) == a;
    } else if first.ok {
      AnyChunking(first.conn, rest);
    }
  }

  // ---------- a refusal is final ----------

  /** Closed, or with something at the front of the buffer that is refused and changes nothing. */
  predicate Stuck(c: Conn) {
    c.closed
    || match Decode(c.buffer)
       case NeedMore => false
       case TooLarge => true
       case Complete(f, _) => AfterFrame(c, f) == Outcome(c, false)
  }

  lemma {:induction false} RefusalLeavesStuck(c: Conn)
    requires !Drain(c).ok
    ensures Stuck(Drain(c).conn)
    decreases |c.buffer|
  {
    if Decode(c.buffer).Complete? {
      DecodeConsumes(c.buffer);
      var o := AfterFrame(c, Decode(c.buffer).frame);
      if o.ok {
        RefusalLeavesStuck(o.conn.(buffer := c.buffer[Decode(c.buffer).consumed..]));
      }
    }
  }

  lemma StuckStays(c: Conn, data: seq<Byte>)
    requires Stuck(c)
    ensures var o := AfterReceive(c, data);
            !o.ok && o.conn.log == c.log && Stuck(o.conn)
  {
    if !c.closed {
      DecodePrefixStable(c.buffer, data);
      if Decode(c.buffer).Complete? {
        FrameIgnoresBuffer(c, Decode(c.buffer).frame, c.buffer + data);
      }
    }
  }

  /** Each of these receives is refused, and none has any effect that can be seen. */
  predicate AllRefused(c: Conn, chunks: seq<seq<Byte>>)
    decreases |chunks|
  {
    chunks == []
    || (var o := AfterReceive(c, chunks[0]);
        !o.ok && o.conn.log == c.log && AllRefused(o.conn, chunks[1..]))
  }

  lemma {:induction false} StuckForever(c: Conn, chunks: seq<seq<Byte>>)
    requires Stuck(c)
    ensures AllRefused(c, chunks)
    decreases |chunks|
  {
    if chunks != [] {
      StuckStays(c, chunks[0]);
      StuckForever(AfterReceive(c, chunks[0]).conn, chunks[1..]);
    }
  }

  /** After one refused receive every other is refused too, and nothing is delivered or sent any more. */
  lemma RefusalIsFinal(c: Conn, data: seq<Byte>, chunks: seq<seq<Byte>>)
    requires !AfterReceive(c, data).ok
    ensures AllRefused(AfterReceive(c, data).conn, chunks)
  {
    if !c.closed {
      RefusalLeavesStuck(c.(buffer := c.buffer + data));
    }
    StuckForever(AfterReceive(c, data).conn, chunks);
  }

  // ---------- what stays in the buffer ----------

  lemma {:induction false} DrainSettles(c: Conn)
    requires Drain(c).ok
    ensures Drain(c).conn.buffer == [] || Decode(Drain(c).conn.buffer).NeedMore?
    decreases |c.buffer|
  {
    if c.buffer != [] && Decode(c.buffer).Complete? {
      DecodeConsumes(c.buffer);
      var o := AfterFrame(c, Decode(c.buffer).frame);
      DrainSettles(o.conn.(buffer := c.buffer[Decode(c.buffer).consumed..]));
    }
  }

  /** After a successful receive the buffer holds at most the unfinished part of one frame. */
  lemma ResidualIsOneUnfinishedFrame(c: Conn, data: seq<Byte>)
    requires AfterReceive(c, data).ok
    ensures var residual := AfterReceive(c, data).conn.buffer;
            && (residual == [] || Decode(residual).NeedMore?)
            && |residual| < 14 + 10485760
  {
    DrainSettles(c.(buffer := c.buffer + data));
    if AfterReceive(c, data).conn.buffer != [] {
      WaitingIsBounded(AfterReceive(c, data).conn.buffer);
    }
  }

  // ---------- a run seen as a sequence of frames ----------

  /** Handles frames one after the other until one is refused. */
  function AfterFrames(c: Conn, frames: seq<Frame>): (o: Outcome)
    ensures o.conn.buffer == c.buffer
    decreases |frames|
  {
    if frames == [] then Outcome(c, true)
    else
      var o := AfterFrame(c, frames[0]);
      if o.ok then AfterFrames(o.conn, frames[1..]) else o
  }

  lemma {:induction false} AfterFramesAppend(c: Conn, a: seq<Frame>, b: seq<Frame>)
    ensures AfterFrames(c, a + b)
         == if AfterFrames(c, a).ok then AfterFrames(AfterFrames(c, a).conn, b) else AfterFrames(c, a)
    decreases |a|
  {
    if a == [] {
      assert a + b == b;
    } else {
      assert (a + b)[1..] == a[1..] + b;
      if AfterFrame(c, a[0]).ok {
        AfterFramesAppend(AfterFrame(c, a[0]).conn, a[1..], b);
      }
    }
  }

  lemma {:induction false} AfterFramesIgnoresBuffer(c: Conn, frames: seq<Frame>, buffer: seq<Byte>)
    ensures AfterFrames(c.(buffer := buffer), frames)
         == Outcome(AfterFrames(c, frames).conn.(buffer := buffer), AfterFrames(c, frames).ok)
    decreases |frames|
  {
    if frames != [] {
      FrameIgnoresBuffer(c, frames[0], buffer);
      if AfterFrame(c, frames[0]).ok {
        AfterFramesIgnoresBuffer(AfterFrame(c, frames[0]).conn, frames[1..], buffer);
      }
    }
  }

  predicate Sendable(frames: seq<Frame>) {
    forall f :: f in frames ==> f.opcode < 16 && |f.payload| <= MAX_PAYLOAD
  }

  function EncodeAll(frames: seq<Frame>, maskings: seq<Masking>): seq<Byte>
    requires |maskings| == |frames|
  {
    if frames == [] then [] else Encode(frames[0], maskings[0]) + EncodeAll(frames[1..], maskings[1..])
  }

  lemma DrainOne(c: Conn, f: Frame, masking: Masking, tail: seq<Byte>)
    requires f.opcode < 16 && |f.payload| <= MAX_PAYLOAD && c.buffer == Encode(f, masking) + tail
    ensures var o := AfterFrame(c, f);
            Drain(c) == if o.ok then Drain(o.conn.(buffer := tail)) else o
  {
    CapacityValues();
    DecodeEncode(f, masking, tail);
    DecodeConsumes(c.buffer);
    assert c.buffer[|Encode(f, masking)|..] == tail;
  }

  lemma EncodeAllFirst(frames: seq<Frame>, maskings: seq<Masking>, rest: seq<Byte>)
    requires |maskings| == |frames| && frames != []
    ensures EncodeAll(frames, maskings) + rest
         == Encode(frames[0], maskings[0]) + (EncodeAll(frames[1..], maskings[1..]) + rest)
  {
    Regroup(Encode(frames[0], maskings[0]), EncodeAll(frames[1..], maskings[1..]), rest);
  }

  /** Draining the encoding of some frames handles those frames and goes on with what follows. */
  lemma {:induction false} DrainEncoded(c: Conn, frames: seq<Frame>, maskings: seq<Masking>, rest: seq<Byte>)
    requires Sendable(frames) && |maskings| == |frames|
    requires c.buffer == EncodeAll(frames, maskings) + rest
    ensures var o := AfterFrames(c, frames);
            if o.ok then Drain(c) == Drain(o.conn.(buffer := rest)) else SameOutcome(Drain(c), o)
    decreases |frames|
  {
    if frames == [] {
      assert c.buffer == rest;
    } else {
      var tail := EncodeAll(frames[1..], maskings[1..]) + rest;
      EncodeAllFirst(frames, maskings, rest);
      assert frames[0] in frames;
      DrainOne(c, frames[0], maskings[0], tail);
      if AfterFrame(c, frames[0]).ok {
        DrainEncoded(AfterFrame(c, frames[0]).conn.(buffer := tail), frames[1..], maskings[1..], rest);
        TailOfFrames(c, frames, tail);
      }
    }
  }

  /** The frames after the first do the same whatever the buffer holds meanwhile. */
  lemma TailOfFrames(c: Conn, frames: seq<Frame>, tail: seq<Byte>)
    requires frames != [] && AfterFrame(c, frames[0]).ok
    ensures var o, next := AfterFrames(c, frames), AfterFrame(c, frames[0]).conn.(buffer := tail);
            var after := AfterFrames(next, frames[1..]);
            after.ok == o.ok && after.conn == o.conn.(buffer := tail)
  {
    AfterFramesIgnoresBuffer(AfterFrame(c, frames[0]).conn, frames[1..], tail);
  }

  // ---------- reassembly ----------

  /** The payload collected by an unfinished message, read off the frames from the last to the first. */
  function Unfinished(frames: seq<Frame>): seq<Byte> {
    if frames == [] then []
    else
      var last, before := frames[|frames| - 1], frames[..|frames| - 1];
      if last.opcode >= 8 then Unfinished(before)
      else if last.fin then []
      else if last.opcode == CONTINUATION then Unfinished(before) + last.payload
      else last.payload
  }

  /** Whether a message has been started and not yet finished. */
  predicate MidMessage(frames: seq<Frame>) {
    if frames == [] then false
    else
      var last, before := frames[|frames| - 1], frames[..|frames| - 1];
      if last.opcode >= 8 then MidMessage(before) else !last.fin
  }

  lemma LastFrame(c: Conn, frames: seq<Frame>)
    requires frames != [] && AfterFrames(c, frames).ok
    ensures var k := |frames| - 1;
            var before := AfterFrames(c, frames[..k]);
            before.ok && AfterFrames(c, frames) == AfterFrame(before.conn, frames[k])
  {
    var k := |frames| - 1;
    assert frames == frames[..k] + [frames[k]];
    AfterFramesAppend(c, frames[..k], [frames[k]]);
    assert [frames[k]][1..] == [];
  }

  /** From a fresh connection, the fragment buffer always holds exactly the unfinished message. */
  lemma {:induction false} FragmentBufferIsUnfinishedMessage(c: Conn, frames: seq<Frame>)
    requires !c.inFragmented && c.fragmentData == [] && AfterFrames(c, frames).ok
    ensures AfterFrames(c, frames).conn.inFragmented == MidMessage(frames)
    ensures AfterFrames(c, frames).conn.fragmentData == Unfinished(frames)
    ensures !MidMessage(frames) ==> Unfinished(frames) == []
    decreases |frames|
  {
    if frames != [] {
      LastFrame(c, frames);
      FragmentBufferIsUnfinishedMessage(c, frames[..|frames| - 1]);
    }
  }

  /** The whole frames a stream begins with. */
  function Parsed(stream: seq<Byte>): seq<Frame>
    decreases |stream|
  {
    if stream == [] then []
    else match Decode(stream)
      case Complete(f, n) =>
        DecodeConsumes(stream);
        [f] + Parsed(stream[n..])
      case _ => []
  }

  /** Draining the buffer is handling the frames it holds. */
  lemma {:induction false} DrainIsFrames(c: Conn)
    requires Drain(c).ok
    ensures AfterFrames(c, Parsed(c.buffer)) == Outcome(Drain(c).conn.(buffer := c.buffer), true)
    decreases |c.buffer|
  {
    if c.buffer != [] && Decode(c.buffer).Complete? {
      DecodeConsumes(c.buffer);
      var f, tail := Decode(c.buffer).frame, c.buffer[Decode(c.buffer).consumed..];
      var o := AfterFrame(c, f);
      DrainIsFrames(o.conn.(buffer := tail));
      AfterFramesIgnoresBuffer(o.conn, Parsed(tail), tail);
      assert Parsed(c.buffer)[1..] == Parsed(tail);
    }
  }

  /**
   * Whatever bytes a peer sends, however they are cut: while they are accepted, the fragment
   * buffer holds exactly the payloads of the message left unfinished, and is empty if none is.
   */
  lemma FragmentBufferOverStream(c: Conn, chunks: seq<seq<Byte>>)
    requires !c.inFragmented && c.fragmentData == [] && c.buffer == []
    requires c.link.Healthy? && !c.closed && chunks != [] && ReadLoop(c, chunks).ok
    ensures var frames, after := Parsed(Concat(chunks)), ReadLoop(c, chunks).conn;
            && after.inFragmented == MidMessage(frames)
            && after.fragmentData == (if MidMessage(frames) then Unfinished(frames) else [])
  {
    WholeStream(c, chunks);
    FragmentBufferAfterDrain(c.(buffer := Concat(chunks)));
  }

  lemma WholeStream(c: Conn, chunks: seq<seq<Byte>>)
    requires c.buffer == [] && c.link.Healthy? && !c.closed && chunks != [] && ReadLoop(c, chunks).ok
    ensures ReadLoop(c, chunks) == Drain(c.(buffer := Concat(chunks)))
  {
    AnyChunking(c, chunks);
    assert [] + Concat(chunks) == Concat(chunks);
  }

  lemma FragmentBufferAfterDrain(c: Conn)
    requires !c.inFragmented && c.fragmentData == [] && Drain(c).ok
    ensures var frames, after := Parsed(c.buffer), Drain(c).conn;
            && after.inFragmented == MidMessage(frames)
            && after.fragmentData == (if MidMessage(frames) then Unfinished(frames) else [])
  {
    DrainIsFrames(c);
    FragmentBufferIsUnfinishedMessage(c, Parsed(c.buffer));
  }

  // ---------- end to end ----------

  datatype Control = Ping(payload: seq<Byte>) | Pong(payload: seq<Byte>)

  /** One fragment of a message, and the control frames sent just before it. */
  datatype Fragment = Fragment(before: seq<Control>, chunk: seq<Byte>)

  /** A data message: opcode 1 to 7 and at least one fragment. */
  datatype Message = Message(opcode: Byte, fragments: seq<Fragment>)

  predicate WellFormed(m: Message) {
    0 < m.opcode < 8 && m.fragments != []
  }

  function ControlFrame(control: Control): Frame {
    Frame(true, if control.Ping? then PING else PONG, control.payload)
  }

  function ControlFrames(controls: seq<Control>): seq<Frame> {
    if controls == [] then []
    else [ControlFrame(controls[0])] + ControlFrames(controls[1..])
  }

  function FragmentFrames(opcode: Byte, fragments: seq<Fragment>): seq<Frame> {
    if fragments == [] then []
    else
      ControlFrames(fragments[0].before)
      + [Frame(|fragments| == 1, opcode, fragments[0].chunk)]
      + FragmentFrames(CONTINUATION, fragments[1..])
  }

  function MessageFrames(messages: seq<Message>): seq<Frame> {
    if messages == [] then []
    else FragmentFrames(messages[0].opcode, messages[0].fragments) + MessageFrames(messages[1..])
  }

  function Payload(fragments: seq<Fragment>): seq<Byte> {
    if fragments == [] then [] else fragments[0].chunk + Payload(fragments[1..])
  }

  function PongFor(control: Control): seq<Event> {
    if control.Ping? then [Sent(ServerFrame(PONG, control.payload))] else []
  }

  function PongsFor(controls: seq<Control>): seq<Event> {
    if controls == [] then [] else PongFor(controls[0]) + PongsFor(controls[1..])
  }

  function PongsWithin(fragments: seq<Fragment>): seq<Event> {
    if fragments == [] then [] else PongsFor(fragments[0].before) + PongsWithin(fragments[1..])
  }

  /** What the server should do: answer the pings of each message, then deliver it whole. */
  function Expected(messages: seq<Message>): seq<Event> {
    if messages == [] then []
    else
      PongsWithin(messages[0].fragments) + [Delivered(Payload(messages[0].fragments))] + Expected(messages[1..])
  }

  ghost predicate Ready(c: Conn) {
    c.link.Healthy? && !c.closed && c.hasHandler && !c.inFragmented && c.fragmentData == []
  }

  function Logged(c: Conn, events: seq<Event>): Conn {
    c.(log := c.log + events)
  }

  lemma LoggedTwice(c: Conn, a: seq<Event>, b: seq<Event>)
    ensures Logged(Logged(c, a), b) == Logged(c, a + b)
  {
    assert c.log + a + b == c.log + (a + b);
  }

  lemma ControlAnswered(c: Conn, control: Control)
    requires c.link.Healthy? && !c.closed
    ensures AfterFrame(c, ControlFrame(control)) == Outcome(Logged(c, PongFor(control)), true)
  {
    if control.Pong? {
      assert c.log + [] == c.log;
    }
  }

  lemma {:induction false} ControlsAnswered(c: Conn, controls: seq<Control>)
    requires c.link.Healthy? && !c.closed
    ensures AfterFrames(c, ControlFrames(controls)) == Outcome(Logged(c, PongsFor(controls)), true)
    decreases |controls|
  {
    if controls == [] {
      assert c.log + [] == c.log;
    } else {
      var frames, next := ControlFrames(controls), Logged(c, PongFor(controls[0]));
      assert frames[0] == ControlFrame(controls[0]) && frames[1..] == ControlFrames(controls[1..]);
      calc {
        AfterFrames(c, frames);
        { ControlAnswered(c, controls[0]); }
        AfterFrames(next, ControlFrames(controls[1..]));
        { ControlsAnswered(next, controls[1..]); }
        Outcome(Logged(next, PongsFor(controls[1..])), true);
        { LoggedTwice(c, PongFor(controls[0]), PongsFor(controls[1..])); }
        Outcome(Logged(c, PongsFor(controls)), true);
      }
    }
  }

  /** What one fragment of a message does: collect, or deliver what has been collected. */
  lemma FragmentCollected(c: Conn, opcode: Byte, chunk: seq<Byte>, fin: bool)
    requires c.hasHandler && opcode < 8
    requires if c.inFragmented then opcode == CONTINUATION else opcode != CONTINUATION && c.fragmentData == []
    ensures var o := AfterFrame(c, Frame(fin, opcode, chunk));
            && o.ok && o.conn.hasHandler && o.conn.link == c.link && o.conn.closed == c.closed
            && o.conn.inFragmented == !fin
            && o.conn.fragmentData == (if fin then [] else c.fragmentData + chunk)
            && o.conn.log == (if fin then c.log + [Delivered(c.fragmentData + chunk)] else c.log)
  {
    assert c.fragmentData == [] ==> c.fragmentData + chunk == chunk;
  }

  /** The connection is ready for the next fragment of a message whose frames carry this opcode. */
  ghost predicate Awaits(c: Conn, opcode: Byte) {
    && c.link.Healthy? && !c.closed && c.hasHandler && opcode < 8
    && if c.inFragmented then opcode == CONTINUATION else opcode != CONTINUATION && c.fragmentData == []
  }

  /** The log when some fragments have joined what was collected before them. */
  function DeliveredLog(log: seq<Event>, data: seq<Byte>, fragments: seq<Fragment>): seq<Event> {
    log + PongsWithin(fragments) + [Delivered(data + Payload(fragments))]
  }

  lemma DeliveredLogStep(log: seq<Event>, data: seq<Byte>, fragments: seq<Fragment>)
    requires fragments != []
    ensures |fragments| == 1 ==>
              DeliveredLog(log, data, fragments)
              == log + PongsFor(fragments[0].before) + [Delivered(data + fragments[0].chunk)]
    ensures DeliveredLog(log, data, fragments)
         == DeliveredLog(log + PongsFor(fragments[0].before), data + fragments[0].chunk, fragments[1..])
  {
    var pongs, rest := PongsFor(fragments[0].before), fragments[1..];
    assert data + (fragments[0].chunk + Payload(rest)) == data + fragments[0].chunk + Payload(rest);
    assert log + (pongs + PongsWithin(rest)) == log + pongs + PongsWithin(rest);
    NoFragments(log + pongs, data + fragments[0].chunk);
  }

  lemma NoFragments(log: seq<Event>, data: seq<Byte>)
    ensures DeliveredLog(log, data, []) == log + [Delivered(data)]
  {
    assert log + [] == log && data + [] == data;
  }

  /** The fragments of one message, first or later ones, are collected and delivered as one. */
  lemma {:induction false} FragmentsDelivered(c: Conn, opcode: Byte, fragments: seq<Fragment>)
    requires Awaits(c, opcode) && fragments != []
    ensures var o := AfterFrames(c, FragmentFrames(opcode, fragments));
            o.ok && Ready(o.conn) && o.conn.log == DeliveredLog(c.log, c.fragmentData, fragments)
    decreases |fragments|
  {
    FragmentStep(c, opcode, fragments);
    DeliveredLogStep(c.log, c.fragmentData, fragments);
    if |fragments| == 1 {
      assert FragmentFrames(CONTINUATION, fragments[1..]) == [];
    } else {
      FragmentsDelivered(AfterFragment(c, opcode, fragments), CONTINUATION, fragments[1..]);
    }
  }

  /** The connection after the first of some fragments and the control frames before it. */
  function AfterFragment(c: Conn, opcode: Byte, fragments: seq<Fragment>): Conn
    requires fragments != []
  {
    AfterFrame(Logged(c, PongsFor(fragments[0].before)), Frame(|fragments| == 1, opcode, fragments[0].chunk)).conn
  }

  lemma FragmentStep(c: Conn, opcode: Byte, fragments: seq<Fragment>)
    requires Awaits(c, opcode) && fragments != []
    ensures var c2, data := AfterFragment(c, opcode, fragments), c.fragmentData + fragments[0].chunk;
            var log, last := c.log + PongsFor(fragments[0].before), |fragments| == 1;
            && AfterFrames(c, FragmentFrames(opcode, fragments))
               == AfterFrames(c2, FragmentFrames(CONTINUATION, fragments[1..]))
            && (if last then Ready(c2) else Awaits(c2, CONTINUATION))
            && c2.fragmentData == (if last then [] else data)
            && c2.log == (if last then log + [Delivered(data)] else log)
  {
    var f := Frame(|fragments| == 1, opcode, fragments[0].chunk);
    FragmentCollected(Logged(c, PongsFor(fragments[0].before)), opcode, f.payload, f.fin);
    FirstFrames(c, fragments[0].before, f, FragmentFrames(CONTINUATION, fragments[1..]));
  }

  lemma FirstFrames(c: Conn, controls: seq<Control>, f: Frame, tail: seq<Frame>)
    requires c.link.Healthy? && !c.closed
    ensures var o := AfterFrame(Logged(c, PongsFor(controls)), f);
            o.ok ==> AfterFrames(c, ControlFrames(controls) + [f] + tail) == AfterFrames(o.conn, tail)
  {
    assert ControlFrames(controls) + [f] + tail == ControlFrames(controls) + ([f] + tail);
    AfterFramesAppend(c, ControlFrames(controls), [f] + tail);
    ControlsAnswered(c, controls);
    assert ([f] + tail)[1..] == tail;
  }

  lemma MessageDelivered(c: Conn, m: Message)
    requires Ready(c) && WellFormed(m)
    ensures var o := AfterFrames(c, FragmentFrames(m.opcode, m.fragments));
            o.ok && Ready(o.conn) && o.conn.log == c.log + Expected([m])
  {
    FragmentsDelivered(c, m.opcode, m.fragments);
    var one := [Delivered(Payload(m.fragments))];
    assert c.fragmentData + Payload(m.fragments) == Payload(m.fragments);
    assert Expected([m]) == PongsWithin(m.fragments) + one by {
      assert [m][1..] == [];
    }
    assert c.log + PongsWithin(m.fragments) + one == c.log + (PongsWithin(m.fragments) + one);
  }

  lemma FirstDelivered(c: Conn, messages: seq<Message>)
    requires Ready(c) && messages != [] && WellFormed(messages[0])
    ensures var c1 := AfterFrames(c, FragmentFrames(messages[0].opcode, messages[0].fragments)).conn;
            && Ready(c1) && c1.log == c.log + Expected([messages[0]])
            && AfterFrames(c, MessageFrames(messages)) == AfterFrames(c1, MessageFrames(messages[1..]))
  {
    var m := messages[0];
    MessageDelivered(c, m);
    AfterFramesAppend(c, FragmentFrames(m.opcode, m.fragments), MessageFrames(messages[1..]));
  }

  lemma {:induction false} MessagesDelivered(c: Conn, messages: seq<Message>)
    requires Ready(c) && forall m :: m in messages ==> WellFormed(m)
    ensures var o := AfterFrames(c, MessageFrames(messages));
            o.ok && Ready(o.conn) && o.conn.log == c.log + Expected(messages)
    decreases |messages|
  {
    if messages == [] {
      assert c.log + [] == c.log;
    } else {
      var m, rest := messages[0], messages[1..];
      FirstDelivered(c, messages);
      MessagesDelivered(AfterFrames(c, FragmentFrames(m.opcode, m.fragments)).conn, rest);
      ExpectedSplit(messages);
      Regroup(c.log, Expected([m]), Expected(rest));
    }
  }

  lemma ExpectedSplit(messages: seq<Message>)
    requires messages != []
    ensures Expected(messages) == Expected([messages[0]]) + Expected(messages[1..])
  {
    var own := PongsWithin(messages[0].fragments) + [Delivered(Payload(messages[0].fragments))];
    assert [messages[0]][1..] == [];
    assert Expected([messages[0]]) == own + Expected([]);
    assert own + [] == own;
  }

  /**
   * Any messages, in any fragments with pings and pongs in between and after, every frame masked
   * or not, cut anywhere: the log grows by exactly the expected events and nothing is left over.
   */
  lemma EndToEnd(c: Conn, messages: seq<Message>, trailing: seq<Control>,
                 maskings: seq<Masking>, chunks: seq<seq<Byte>>)
    requires Ready(c) && c.buffer == [] && chunks != []
    requires forall m :: m in messages ==> WellFormed(m)
    requires var frames := MessageFrames(messages) + ControlFrames(trailing);
             && Sendable(frames) && |maskings| == |frames|
             && Concat(chunks) == EncodeAll(frames, maskings)
    ensures var o := ReadLoop(c, chunks);
            && o.ok && Ready(o.conn) && o.conn.buffer == []
            && o.conn.log == c.log + Expected(messages) + PongsFor(trailing)
  {
    var frames := MessageFrames(messages) + ControlFrames(trailing);
    AnyChunking(c, chunks);
    var full := c.(buffer := c.buffer + Concat(chunks));
    assert full.buffer == EncodeAll(frames, maskings) + [];
    DrainEncoded(full, frames, maskings, []);
    AfterFramesAppend(full, MessageFrames(messages), ControlFrames(trailing));
    MessagesDelivered(full, messages);
    ControlsAnswered(AfterFrames(full, MessageFrames(messages)).conn, trailing);
  }

  /** After the peer's close frame the server answers with its own and nothing else ever happens. */
  lemma NothingAfterClose(c: Conn, messages: seq<Message>, trailing: seq<Control>, reason: seq<Byte>,
                          maskings: seq<Masking>, junk: seq<Byte>, chunks: seq<seq<Byte>>)
    requires Ready(c) && c.buffer == [] && chunks != []
    requires forall m :: m in messages ==> WellFormed(m)
    requires var frames := MessageFrames(messages) + ControlFrames(trailing) + [Frame(true, CLOSE, reason)];
             && Sendable(frames) && |maskings| == |frames|
             && Concat(chunks) == EncodeAll(frames, maskings) + junk
    ensures var o := ReadLoop(c, chunks);
            && !o.ok && o.conn.closed
            && o.conn.log == c.log + Expected(messages) + PongsFor(trailing) + [Sent(CLOSE_REPLY)]
  {
    var before := MessageFrames(messages) + ControlFrames(trailing);
    var close := Frame(true, CLOSE, reason);
    AnyChunking(c, chunks);
    var full := c.(buffer := c.buffer + Concat(chunks));
    DrainEncoded(full, before + [close], maskings, junk);
    AfterFramesAppend(full, before, [close]);
    AfterFramesAppend(full, MessageFrames(messages), ControlFrames(trailing));
    MessagesDelivered(full, messages);
    ControlsAnswered(AfterFrames(full, MessageFrames(messages)).conn, trailing);
  }

  // ---------- the expected events, seen by kind ----------

  function Deliveries(log: seq<Event>): seq<seq<Byte>> {
    if log == [] then []
    else (if log[0].Delivered? then [log[0].message] else []) + Deliveries(log[1..])
  }

  lemma {:induction false} DeliveriesAppend(a: seq<Event>, b: seq<Event>)
    ensures Deliveries(a + b) == Deliveries(a) + Deliveries(b)
  {
    if a == [] {
      assert a + b == b;
    } else {
      assert (a + b)[1..] == a[1..] + b;
      DeliveriesAppend(a[1..], b);
    }
  }

  lemma {:induction false} PongsDeliverNothing(controls: seq<Control>)
    ensures Deliveries(PongsFor(controls)) == []
  {
    if controls != [] {
      PongsDeliverNothing(controls[1..]);
      var rest := PongsFor(controls[1..]);
      if controls[0].Ping? {
        assert PongsFor(controls)[1..] == rest;
      } else {
        assert PongsFor(controls) == rest;
      }
    }
  }

  lemma {:induction false} FragmentPongsDeliverNothing(fragments: seq<Fragment>)
    ensures Deliveries(PongsWithin(fragments)) == []
  {
    if fragments != [] {
      PongsDeliverNothing(fragments[0].before);
      FragmentPongsDeliverNothing(fragments[1..]);
      DeliveriesAppend(PongsFor(fragments[0].before), PongsWithin(fragments[1..]));
    }
  }

  /** Every message is delivered exactly once, in order, as the concatenation of its fragments. */
  lemma {:induction false} ExpectedDeliversEachOnce(messages: seq<Message>)
    ensures Deliveries(Expected(messages))
         == seq(|messages|, i requires 0 <= i < |messages| => Payload(messages[i].fragments))
  {
    if messages != [] {
      var m, rest := messages[0], messages[1..];
      var one := Delivered(Payload(m.fragments));
      FragmentPongsDeliverNothing(m.fragments);
      ExpectedDeliversEachOnce(rest);
      DeliveriesAppend(PongsWithin(m.fragments) + [one], Expected(rest));
      DeliveriesAppend(PongsWithin(m.fragments), [one]);
      assert [one][1..] == [];
      assert Deliveries([one]) == [Payload(m.fragments)];
    }
  }
}
