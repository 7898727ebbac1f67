/**
 * One WebSocket connection: the receive buffer, reassembly of fragmented messages and
 * the replies the server sends. `Conn` is the state of a connection as a value, the
 * `After...` functions say what each operation does to it, and class `WsConnection`
 * performs the operations in place.
 */
module WebSocketConnection {
  import opened Bytes
  import opened WebSocketFrames

  const CONTINUATION: Byte := 0x0
  const CLOSE: Byte := 0x8
  const PING: Byte := 0x9
  const PONG: Byte := 0xA

  /** What the outside world sees: a message handed to the handler, or bytes put on the socket. */
  datatype Event = Delivered(message: seq<Byte>) | Sent(bytes: seq<Byte>)

  /** How the socket treats sends: it never fails, or it takes `left` more and then breaks. */
  datatype Link = Healthy | Breaking(left: nat)

  datatype Conn = Conn(
    buffer: seq<Byte>,
    inFragmented: bool,
    fragmentOpcode: Byte,
    fragmentData: seq<Byte>,
    closed: bool,
    hasHandler: bool,
    link: Link,
    log: seq<Event>)

  /** A state and the boolean the operation returned. */
  datatype Outcome = Outcome(conn: Conn, ok: bool)

  // ---------- what each operation does ----------

  function AfterSend(c: Conn, bytes: seq<Byte>): Outcome {
    if c.closed then Outcome(c, false)
    else match c.link
      case Healthy => Outcome(c.(log := c.log + [Sent(bytes)]), true)
      case Breaking(left) =>
        if left == 0 then Outcome(c.(closed := true), false)
        else Outcome(c.(link := Breaking(left - 1), log := c.log + [Sent(bytes)]), true)
  }

  function ServerFrame(opcode: Byte, payload: seq<Byte>): seq<Byte> {
    Encode(Frame(true, opcode, payload), Unmasked)
  }

  function ClosePayload(code: nat, reason: seq<Byte>): seq<Byte> {
    [ByteOf(code / 256), ByteOf(code)] + reason
  }

  /** "Normal closure" in ASCII. */
  const NORMAL_CLOSURE: seq<Byte> := [78, 111, 114, 109, 97, 108, 32, 99, 108, 111, 115, 117, 114, 101]

  const CLOSE_REPLY: seq<Byte> := ServerFrame(CLOSE, ClosePayload(1000, NORMAL_CLOSURE))

  function AfterDelivery(c: Conn, message: seq<Byte>): Conn {
    if c.hasHandler then c.(log := c.log + [Delivered(message)]) else c
  }

  function AfterControl(c: Conn, f: Frame): Outcome {
    if f.opcode == PING then Outcome(AfterSend(c, ServerFrame(PONG, f.payload)).conn, true)
    else if f.opcode == PONG then Outcome(c, true)
    else if f.opcode == CLOSE && !c.closed then
      Outcome(AfterSend(c, CLOSE_REPLY).conn.(closed := true), false)
    else Outcome(c, false)
  }

  function AfterData(c: Conn, f: Frame): Outcome {
    if f.opcode == CONTINUATION then
      if !c.inFragmented then Outcome(c, false)
      else if f.fin then
        Outcome(AfterDelivery(c.(inFragmented := false, fragmentData := []), c.fragmentData + f.payload), true)
      else Outcome(c.(fragmentData := c.fragmentData + f.payload), true)
    else if c.inFragmented then Outcome(c, false)
    else if !f.fin then
      Outcome(c.(inFragmented := true, fragmentOpcode := f.opcode, fragmentData := f.payload), true)
    else Outcome(AfterDelivery(c, f.payload), true)
  }

  function AfterFrame(c: Conn, f: Frame): (o: Outcome)
    ensures o.conn.buffer == c.buffer
  {
    if f.opcode >= 8 then AfterControl(c, f) else AfterData(c, f)
  }

  /** Handles whole frames from the front of the buffer until none is left or one is refused. */
  function Drain(c: Conn): Outcome
    decreases |c.buffer|
  {
    if c.buffer == [] then Outcome(c, true)
    else match Decode(c.buffer)
      case NeedMore => Outcome(c, true)
      case TooLarge => Outcome(c, false)
      case Complete(f, n) =>
        DecodeConsumes(c.buffer);
        var o := AfterFrame(c, f);
        if o.ok then Drain(o.conn.(buffer := c.buffer[n..])) else o
  }

  function AfterReceive(c: Conn, data: seq<Byte>): Outcome {
    if c.closed then Outcome(c, false) else Drain(c.(buffer := c.buffer + data))
  }

  // ---------- the operations in place ----------

  class WsConnection {
    var recvBuffer: seq<Byte>
    var inFragmented: bool
    var fragmentOpcode: Byte
    var fragmentData: seq<Byte>
    var closed: bool
    var hasHandler: bool
    var link: Link          // the socket
    var log: seq<Event>     // what has been delivered and sent so far

    function State(): Conn
      reads this
    {
      Conn(recvBuffer, inFragmented, fragmentOpcode, fragmentData, closed, hasHandler, link, log)
    }

    constructor (hasHandler: bool, link: Link)
      ensures State() == Conn([], false, 0, [], false, hasHandler, link, [])
    {
      recvBuffer, inFragmented, fragmentOpcode, fragmentData := [], false, 0, [];
      closed, this.hasHandler, this.link, log := false, hasHandler, link, [];
    }

    method Close()
      modifies this
      ensures State() == old(State()).(closed := true)
    {
      if !closed {
        closed := true;
      }
    }

    method SendRaw(bytes: seq<Byte>) returns (ok: bool)
      modifies this
      ensures Outcome(State(), ok) == AfterSend(old(State()), bytes)
    {
      if closed {
        return false;
      }
      if link == Breaking(0) {
        Close();
        return false;
      }
      if link.Breaking? {
        link := Breaking(link.left - 1);
      }
      log := log + [Sent(bytes)];
      return true;
    }

    method SendFrame(opcode: Byte, data: seq<Byte>, fin: bool) returns (ok: bool)
      modifies this
      ensures Outcome(State(), ok) == AfterSend(old(State()), Encode(Frame(fin, opcode, data), Unmasked))
    {
      if closed {
        return false;
      }
      var first := opcode % 16;
      if fin {
        first := first + 128;
      }
      var frame: seq<Byte> := [first];
      if |data| <= 125 {
        frame := frame + [|data|];
      } else if |data| <= 65535 {
        frame := frame + [126];
        frame := frame + [ByteOf(|data| / 256)];
        frame := frame + [ByteOf(|data|)];
        assert BigEndian(|data| / 256, 1) == [] + [ByteOf(|data| / 256)];
      } else {
        frame := frame + [127];
        var lengthBytes := WriteLength(|data|);
        frame := frame + lengthBytes;
      }
      frame := frame + data;
      assert frame == Encode(Frame(fin, opcode, data), Unmasked);
      ok := SendRaw(frame);
    }

    method SendPong(payload: seq<Byte>) returns (ok: bool)
      modifies this
      ensures Outcome(State(), ok) == AfterSend(old(State()), ServerFrame(PONG, payload))
    {
      ok := SendFrame(PONG, payload, true);
    }

    method SendClose(code: nat, reason: seq<Byte>) returns (ok: bool)
      requires code < 65536
      modifies this
      ensures var o := AfterSend(old(State()), ServerFrame(CLOSE, ClosePayload(code, reason)));
              ok == o.ok && State() == o.conn.(closed := true)
    {
      ok := SendFrame(CLOSE, [ByteOf(code / 256), ByteOf(code)] + reason, true);
      Close();
    }

    method HandleFrame(f: Frame) returns (ok: bool)
      modifies this
      ensures Outcome(State(), ok) == AfterFrame(old(State()), f)
    {
      if f.opcode >= 8 {
        if f.opcode == PING {
          var _ := SendPong(f.payload);
          return true;
        } else if f.opcode == PONG {
          return true;
        } else if f.opcode == CLOSE {
          if !closed {
            var _ := SendClose(1000, NORMAL_CLOSURE);
          }
          return false;
        } else {
          return false;
        }
      }
      if f.opcode == CONTINUATION {
        if !inFragmented {
          return false;
        }
        fragmentData := fragmentData + f.payload;
        if f.fin {
          inFragmented := false;
          var message := fragmentData;
          fragmentData := [];
          if hasHandler {
            log := log + [Delivered(message)];
          }
        }
      } else {
        if inFragmented {
          return false;
        }
        if !f.fin {
          inFragmented := true;
          fragmentOpcode := f.opcode;
          fragmentData := f.payload;
        } else if hasHandler {
          log := log + [Delivered(f.payload)];
        }
      }
      return true;
    }

    method ParseFrame(data: seq<Byte>) returns (ok: bool, consumed: nat)
      modifies this
      ensures match Decode(data)
              case NeedMore => ok && consumed == 0 && State() == old(State())
              case TooLarge => !ok && State() == old(State())
              case Complete(f, n) => consumed == n && Outcome(State(), ok) == AfterFrame(old(State()), f)
    {
      consumed := 0;
      if |data| < 2 {
        return true, 0;
      }
      var lenByte := data[1] % 128;
      var headerLen := 2;
      var payloadLen: nat;
      if lenByte == 126 {
        if |data| < 4 {
          return true, 0;
        }
        payloadLen := 256 * (data[2] as nat) + data[3];
        headerLen := 4;
        TwoByteLength(data[2..4]);
      } else if lenByte == 127 {
        if |data| < 10 {
          return true, 0;
        }
        payloadLen := ReadLength(data[2..10]);
        headerLen := 10;
      } else {
        payloadLen := lenByte;
      }
      assert payloadLen == PayloadLength(data);
      if payloadLen > MAX_PAYLOAD {
        return false, 0;
      }
      var key := [];
      if data[1] >= 128 {
        if |data| < headerLen + 4 {
          return true, 0;
        }
        key := data[headerLen..headerLen + 4];
        headerLen := headerLen + 4;
      }
      if |data| < headerLen + payloadLen {
        return true, 0;
      }
      var payload := data[headerLen..headerLen + payloadLen];
      if data[1] >= 128 {
        payload := Unmask(payload, key);
      }
      consumed := headerLen + payloadLen;
      ok := HandleFrame(Frame(data[0] >= 128, data[0] % 16, payload));
    }

    method HandleReceive(data: seq<Byte>) returns (ok: bool)
      modifies this
      ensures Outcome(State(), ok) == AfterReceive(old(State()), data)
    {
      if closed {
        return false;
      }
      recvBuffer := recvBuffer + data;
      ghost var start := State();
      while recvBuffer != []
        invariant Drain(start) == Drain(State())
        decreases |recvBuffer|
      {
        DecodeConsumes(recvBuffer);
        var parsed, consumed := ParseFrame(recvBuffer);
        if !parsed {
          return false;
        }
        if consumed == 0 {
          break;
        }
        recvBuffer := recvBuffer[consumed..];
      }
      return true;
    }
  }
}
