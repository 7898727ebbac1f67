/**
 * Where the way TCP cuts the stream can be seen after all: a pong that cannot be sent closes the
 * connection, but the receive that tried to send it goes on and reports success.
 */
module WebSocketCuts {
  import opened Bytes
  import opened WebSocketFrames
  import opened WebSocketConnection
  import opened WebSocketDelivery

  // ---------- what is accepted, and what closes the connection ----------

  /** What follows the whole frames of a stream. */
  function Unparsed(stream: seq<Byte>): seq<Byte>
    decreases |stream|
  {
    if Decode(stream).Complete? then
      DecodeConsumes(stream);
      Unparsed(stream[Decode(stream).consumed..])
    else stream
  }

  /** Frames that are all accepted: pings, pongs, and fragments that continue or start a message in turn. */
  predicate Acceptable(inFragmented: bool, frames: seq<Frame>)
    decreases |frames|
  {
    frames == []
    || (var f, rest := frames[0], frames[1..];
        if f.opcode >= 8 then (f.opcode == PING || f.opcode == PONG) && Acceptable(inFragmented, rest)
        else (inFragmented <==> f.opcode == CONTINUATION) && Acceptable(!f.fin, rest))
  }

  function Pings(frames: seq<Frame>): nat {
    if frames == [] then 0 else (if frames[0].opcode == PING then 1 else 0) + Pings(frames[1..])
  }

  /** The bytes that a connection accepts: acceptable frames, and no announcement of too long a payload. */
  predicate Accepts(c: Conn, stream: seq<Byte>) {
    Acceptable(c.inFragmented, Parsed(stream)) && !Decode(Unparsed(stream)).TooLarge?
  }

  /** More pings to answer than the link still carries frames. */
  predicate BreaksOn(link: Link, frames: seq<Frame>) {
    link.Breaking? && Pings(frames) > link.left
  }

  lemma AcceptsFirst(c: Conn)
    requires Decode(c.buffer).Complete?
    ensures var f, tail := Decode(c.buffer).frame, c.buffer[Decode(c.buffer).consumed..];
            var o := AfterFrame(c, f);
            Accepts(c, c.buffer) <==> o.ok && Accepts(o.conn, tail)
  {
    DecodeConsumes(c.buffer);
    var f, tail := Decode(c.buffer).frame, c.buffer[Decode(c.buffer).consumed..];
    assert Parsed(c.buffer)[0] == f && Parsed(c.buffer)[1..] == Parsed(tail);
  }

  lemma {:induction false} AcceptedExactly(c: Conn)
    ensures Drain(c).ok <==> Accepts(c, c.buffer)
    decreases |c.buffer|
  {
    if Decode(c.buffer).Complete? {
      DecodeConsumes(c.buffer);
      AcceptsFirst(c);
      var o := AfterFrame(c, Decode(c.buffer).frame);
      if o.ok {
        AcceptedExactly(o.conn.(buffer := c.buffer[Decode(c.buffer).consumed..]));
      }
    }
  }

  /** Handling accepted frames closes an open connection exactly if the link breaks on them. */
  lemma {:induction false} ClosedExactly(c: Conn, frames: seq<Frame>)
    requires AfterFrames(c, frames).ok
    ensures AfterFrames(c, frames).conn.closed <==> c.closed || BreaksOn(c.link, frames)
    decreases |frames|
  {
    if frames != [] {
      ClosedExactly(AfterFrame(c, frames[0]).conn, frames[1..]);
    }
  }

  /** A receive on an open connection that reports success has closed it exactly if the link broke on its pings. */
  lemma ReceiveClosesExactly(c: Conn, a: seq<Byte>)
    requires !c.closed && AfterReceive(c, a).ok
    ensures AfterReceive(c, a).conn.closed <==> BreaksOn(c.link, Parsed(c.buffer + a))
  {
    var full := c.(buffer := c.buffer + a);
    DrainIsFrames(full);
    ClosedExactly(full, Parsed(full.buffer));
  }

  // ---------- after the link has broken ----------

  /** The decoder's answer changes only with the last byte it needs. */
  lemma CompletedBy(data: seq<Byte>, more: seq<Byte>)
    requires Decode(data).NeedMore? && Decode(data + more).Complete?
    ensures |data| < Decode(data + more).consumed
  {
    var whole := data + more;
    if |data| >= 2 && |data| >= 2 + ExtensionSize(data[1]) {
      var ext := ExtensionSize(data[1]);
      assert whole[2..2 + ext] == data[2..2 + ext];
    }
  }

  /** A frame decodes the same when nothing follows it. */
  lemma DecodeAlone(data: seq<Byte>)
    requires Decode(data).Complete?
    ensures Decode(data[..Decode(data).consumed]) == Decode(data)
  {
    var n, ext, header := Decode(data).consumed, ExtensionSize(data[1]), HeaderSize(data[1]);
    var alone := data[..n];
    assert alone[2..2 + ext] == data[2..2 + ext];
    assert data == alone + data[n..];
    PayloadPrefixStable(alone, data[n..], header, n - header);
  }

  /** Receives on a closed connection are refused; `Late` is what the same bytes do if no cut precedes them. */
  function Late(d: Conn, b: seq<Byte>): Outcome {
    Drain(d.(buffer := d.buffer + b))
  }

  /** If one byte more is refused by a closed connection, so is everything that begins with it. */
  lemma RefusedByOneByte(d: Conn, b: seq<Byte>)
    requires d.closed && Decode(d.buffer).NeedMore? && b != [] && !Late(d, b[..1]).ok
    ensures Late(d, b) == Outcome(d.(buffer := d.buffer + b), false)
  {
    var one := d.buffer + b[..1];
    assert one + b[1..] == d.buffer + b;
    DecodePrefixStable(one, b[1..]);
    if Decode(one).Complete? {
      CompletedBy(d.buffer, b[..1]);
      DecodeConsumes(one);
      assert one[Decode(one).consumed..] == [];
      var f := Decode(one).frame;
      FrameIgnoresBuffer(d, f, one);
      FrameIgnoresBuffer(d, f, d.buffer + b);
      assert Drain(AfterFrame(d, f).conn.(buffer := [])).ok;
      assert AfterFrame(d, f) == Outcome(d, false);
    }
  }

  /** What the two ways of receiving come to, once the first part has closed the connection. */
  lemma CutAfterClosing(c: Conn, a: seq<Byte>, b: seq<Byte>)
    requires !c.closed && AfterReceive(c, a).ok && AfterReceive(c, a).conn.closed
    ensures var d := AfterReceive(c, a).conn;
            ReceiveTwice(c, a, b) == Outcome(d, false) && AfterReceive(c, a + b) == Late(d, b)
  {
    var full := c.(buffer := c.buffer + a);
    assert full.buffer + b == c.buffer + (a + b);
    DrainContinues(full, b);
  }

  lemma LeftUnparsed(c: Conn, a: seq<Byte>)
    requires !c.closed && AfterReceive(c, a).ok
    ensures var d := AfterReceive(c, a).conn;
            && Decode(d.buffer).NeedMore? && d.buffer == Unparsed(c.buffer + a)
            && d.hasHandler == c.hasHandler
  {
    DrainSettles(c.(buffer := c.buffer + a));
    DrainRest(c.(buffer := c.buffer + a));
  }

  lemma {:induction false} DrainRest(c: Conn)
    requires Drain(c).ok
    ensures Drain(c).conn.buffer == Unparsed(c.buffer) && Drain(c).conn.hasHandler == c.hasHandler
    decreases |c.buffer|
  {
    if Decode(c.buffer).Complete? {
      DecodeConsumes(c.buffer);
      var o := AfterFrame(c, Decode(c.buffer).frame);
      DrainRest(o.conn.(buffer := c.buffer[Decode(c.buffer).consumed..]));
    }
  }

  // ---------- which cuts can be seen ----------

  /** The connection accepts these bytes, and there is a byte it accepts after them. */
  predicate GoesOn(c: Conn, stream: seq<Byte>) {
    Accepts(c, stream) && exists x: Byte :: Accepts(c, stream + [x])
  }

  /**
   * The cut after `a` changes the outcome for some bytes that follow if and only if the connection
   * is open, what has arrived is accepted and can go on, and it holds more pings than the link can
   * still answer.
   */
  lemma ChunkIndependenceExactly(c: Conn, a: seq<Byte>)
    ensures var stream := c.buffer + a;
            (exists b :: b != [] && !SameOutcome(ReceiveTwice(c, a, b), AfterReceive(c, a + b)))
            <==> !c.closed && GoesOn(c, stream) && BreaksOn(c.link, Parsed(stream))
  {
    AcceptedExactly(c.(buffer := c.buffer + a));
    if AfterReceive(c, a).ok {
      ReceiveClosesExactly(c, a);
    }
    if AfterReceive(c, a).ok && AfterReceive(c, a).conn.closed {
      if exists x: Byte :: Accepts(c, c.buffer + a + [x]) {
        var x: Byte :| Accepts(c, c.buffer + a + [x]);
        CutSeen(c, a, x);
      } else {
        forall b | b != [] ensures SameOutcome(ReceiveTwice(c, a, b), AfterReceive(c, a + b)) {
          CutHidden(c, a, b);
        }
      }
    } else {
      forall b ensures SameOutcome(ReceiveTwice(c, a, b), AfterReceive(c, a + b)) {
        ChunkIndependence(c, a, b);
      }
    }
  }

  lemma AcceptedWhole(c: Conn, a: seq<Byte>, b: seq<Byte>)
    requires !c.closed
    ensures AfterReceive(c, a + b).ok <==> Accepts(c, c.buffer + a + b)
  {
    assert c.buffer + (a + b) == c.buffer + a + b;
    AcceptedExactly(c.(buffer := c.buffer + (a + b)));
  }

  lemma CutSeen(c: Conn, a: seq<Byte>, x: Byte)
    requires !c.closed && AfterReceive(c, a).ok && AfterReceive(c, a).conn.closed
    requires Accepts(c, c.buffer + a + [x])
    ensures !SameOutcome(ReceiveTwice(c, a, [x]), AfterReceive(c, a + [x]))
  {
    AcceptedWhole(c, a, [x]);
  }

  lemma CutHidden(c: Conn, a: seq<Byte>, b: seq<Byte>)
    requires !c.closed && AfterReceive(c, a).ok && AfterReceive(c, a).conn.closed
    requires b != [] && forall x: Byte :: !Accepts(c, c.buffer + a + [x])
    ensures SameOutcome(ReceiveTwice(c, a, b), AfterReceive(c, a + b))
  {
    assert b[..1] == [b[0]];
    AcceptedWhole(c, a, [b[0]]);
    CutAfterClosing(c, a, [b[0]]);
    CutAfterClosing(c, a, b);
    LeftUnparsed(c, a);
    RefusedByOneByte(AfterReceive(c, a).conn, b);
  }

  // ---------- which cuts lose a message ----------

  /** Some continuation finishes the frame that has begun, or the next one, as one that is accepted. */
  ghost predicate Finishable(c: Conn, stream: seq<Byte>) {
    exists b :: Finishes(c, stream, b)
  }

  predicate Finishes(c: Conn, stream: seq<Byte>, b: seq<Byte>) {
    var next := Decode(Unparsed(stream) + b);
    next.Complete? && Acceptable(c.inFragmented, Parsed(stream) + [next.frame])
  }

  lemma {:induction false} FramesAccepted(c: Conn, frames: seq<Frame>)
    ensures AfterFrames(c, frames).ok <==> Acceptable(c.inFragmented, frames)
    decreases |frames|
  {
    if frames != [] && AfterFrame(c, frames[0]).ok {
      FramesAccepted(AfterFrame(c, frames[0]).conn, frames[1..]);
    }
  }

  /** Finishing, seen from the connection that the first part has left. */
  lemma FinishesMeans(c: Conn, a: seq<Byte>, b: seq<Byte>)
    requires !c.closed && AfterReceive(c, a).ok
    ensures var d, next := AfterReceive(c, a).conn, Decode(Unparsed(c.buffer + a) + b);
            next.Complete? ==> (Finishes(c, c.buffer + a, b) <==> AfterFrame(d, next.frame).ok)
  {
    var full, next := c.(buffer := c.buffer + a), Decode(Unparsed(c.buffer + a) + b);
    if next.Complete? {
      var frames := Parsed(full.buffer);
      DrainIsFrames(full);
      FramesAccepted(full, frames + [next.frame]);
      AfterFramesAppend(full, frames, [next.frame]);
      var d := Drain(full).conn;
      FrameIgnoresBuffer(d, next.frame, full.buffer);
      assert [next.frame][1..] == [];
    }
  }

  /** A closed connection without a handler has no effects. */
  lemma {:induction false} SilentWithoutHandler(d: Conn)
    requires d.closed && !d.hasHandler
    ensures Drain(d).conn.log == d.log
    decreases |d.buffer|
  {
    if Decode(d.buffer).Complete? {
      DecodeConsumes(d.buffer);
      var o := AfterFrame(d, Decode(d.buffer).frame);
      if o.ok {
        SilentWithoutHandler(o.conn.(buffer := d.buffer[Decode(d.buffer).consumed..]));
      }
    }
  }

  /** The end of a message, whether one has begun or not. */
  function LastFrameOf(d: Conn): seq<Byte> {
    Encode(Frame(true, if d.inFragmented then CONTINUATION else 1, []), Unmasked)
  }

  lemma LastFrameDelivers(d: Conn)
    requires d.hasHandler
    ensures |Late(d.(buffer := []), LastFrameOf(d)).conn.log| == |d.log| + 1
  {
    var f := Frame(true, if d.inFragmented then CONTINUATION else 1, []);
    var full := d.(buffer := [] + LastFrameOf(d));
    CapacityValues();
    assert full.buffer == Encode(f, Unmasked) + [];
    DrainOne(full, f, Unmasked, []);
  }

  /** A frame that is finished, and then the end of a message, make a closed connection deliver. */
  lemma FinishedDelivers(d: Conn, b: seq<Byte>) returns (more: seq<Byte>)
    requires d.closed && d.hasHandler && Decode(d.buffer).NeedMore?
    requires Decode(d.buffer + b).Complete? && AfterFrame(d, Decode(d.buffer + b).frame).ok
    ensures more != [] && Late(d, more).conn.log != d.log
  {
    var whole := d.buffer + b;
    var f, n := Decode(whole).frame, Decode(whole).consumed;
    DecodeConsumes(whole);
    CompletedBy(d.buffer, b);
    var next := AfterFrame(d, f).conn;
    var end := LastFrameOf(next);
    more := b[..n - |d.buffer|] + end;
    assert d.buffer + more == whole[..n] + end;
    DecodeAlone(whole);
    FirstOfLate(d, f, whole[..n], more, end);
    LastFrameDelivers(next);
  }

  /** A frame that is accepted, and what follows it. */
  lemma FirstOfLate(d: Conn, f: Frame, first: seq<Byte>, more: seq<Byte>, end: seq<Byte>)
    requires Decode(first) == Complete(f, |first|) && d.buffer + more == first + end && AfterFrame(d, f).ok
    ensures Late(d, more) == Late(AfterFrame(d, f).conn.(buffer := []), end)
  {
    DecodePrefixStable(first, end);
    DecodeConsumes(first + end);
    assert (first + end)[|first|..] == [] + end;
    FrameIgnoresBuffer(d, f, d.buffer + more);
  }

  /**
   * The cut after `a` changes what is delivered or sent, for some bytes that follow, if and only if
   * moreover there is a handler and the frame that has begun can still be finished and accepted.
   */
  lemma LostMessageExactly(c: Conn, a: seq<Byte>)
    ensures var stream := c.buffer + a;
            (exists b :: b != [] && ReceiveTwice(c, a, b).conn.log != AfterReceive(c, a + b).conn.log)
            <==> && !c.closed && Accepts(c, stream) && BreaksOn(c.link, Parsed(stream))
                 && c.hasHandler && Finishable(c, stream)
  {
    var stream := c.buffer + a;
    AcceptedExactly(c.(buffer := stream));
    if AfterReceive(c, a).ok {
      ReceiveClosesExactly(c, a);
    }
    if AfterReceive(c, a).ok && AfterReceive(c, a).conn.closed {
      forall b | ReceiveTwice(c, a, b).conn.log != AfterReceive(c, a + b).conn.log
        ensures c.hasHandler && Finishes(c, stream, b)
      {
        LossMeans(c, a, b);
      }
      if c.hasHandler && Finishable(c, stream) {
        var b :| Finishes(c, stream, b);
        var more := LossHappens(c, a, b);
      }
    } else {
      forall b ensures ReceiveTwice(c, a, b).conn.log == AfterReceive(c, a + b).conn.log {
        ChunkIndependence(c, a, b);
      }
    }
  }

  lemma LossMeans(c: Conn, a: seq<Byte>, b: seq<Byte>)
    requires !c.closed && AfterReceive(c, a).ok && AfterReceive(c, a).conn.closed
    requires ReceiveTwice(c, a, b).conn.log != AfterReceive(c, a + b).conn.log
    ensures c.hasHandler && Finishes(c, c.buffer + a, b)
  {
    var d := AfterReceive(c, a).conn;
    var whole := d.buffer + b;
    CutAfterClosing(c, a, b);
    LeftUnparsed(c, a);
    if !d.hasHandler {
      SilentWithoutHandler(d.(buffer := whole));
    }
    FinishesMeans(c, a, b);
    if Decode(whole).Complete? {
      FrameIgnoresBuffer(d, Decode(whole).frame, whole);
    }
  }

  lemma LossHappens(c: Conn, a: seq<Byte>, b: seq<Byte>) returns (more: seq<Byte>)
    requires !c.closed && AfterReceive(c, a).ok && AfterReceive(c, a).conn.closed
    requires c.hasHandler && Finishes(c, c.buffer + a, b)
    ensures more != [] && ReceiveTwice(c, a, more).conn.log != AfterReceive(c, a + more).conn.log
  {
    LeftUnparsed(c, a);
    FinishesMeans(c, a, b);
    more := FinishedDelivers(AfterReceive(c, a).conn, b);
    CutAfterClosing(c, a, more);
  }

  const EMPTY_PING: seq<Byte> := [0x89, 0]
  const EMPTY_TEXT: seq<Byte> := [0x81, 0]

  /**
   * A cut that can be seen: on a link that has just broken, a ping and a text message. In one
   * piece the message is delivered, after the pong has failed; cut in two it is not.
   */
  lemma VisibleCut()
    ensures var c := Conn([], false, 0, [], false, true, Breaking(0), []);
            && AfterReceive(c, EMPTY_PING + EMPTY_TEXT).ok
            && AfterReceive(c, EMPTY_PING + EMPTY_TEXT).conn.log == [Delivered([])]
            && AfterReceive(c, EMPTY_PING).ok
            && !ReceiveTwice(c, EMPTY_PING, EMPTY_TEXT).ok
            && ReceiveTwice(c, EMPTY_PING, EMPTY_TEXT).conn.log == []
  {
    var c := Conn([], false, 0, [], false, true, Breaking(0), []);
    var ping, text := Frame(true, PING, []), Frame(true, 1, []);
    assert Decode(EMPTY_TEXT) == Complete(text, 2);
    assert Decode(EMPTY_PING) == Complete(ping, 2);
    DecodePrefixStable(EMPTY_PING, EMPTY_TEXT);
    assert (EMPTY_PING + EMPTY_TEXT)[2..] == EMPTY_TEXT;
    var closed := c.(closed := true);
    assert AfterFrame(c, ping) == Outcome(closed, true);
    assert AfterFrame(closed, text) == Outcome(closed.(log := [Delivered([])]), true);
    assert EMPTY_TEXT[2..] == [] && EMPTY_PING[2..] == [];
    assert Drain(closed.(buffer := EMPTY_TEXT)).conn.log == [Delivered([])];
    assert [] + EMPTY_PING == EMPTY_PING && [] + (EMPTY_PING + EMPTY_TEXT) == EMPTY_PING + EMPTY_TEXT;
  }
}
