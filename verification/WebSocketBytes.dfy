/**
 * The frame format and the control frames in terms of bytes, bits and numbers alone, as sections
 * 5.2, 5.3 and 5.5 of RFC 6455 give them: what the codec and the connection mean, not what they call.
 */
module WebSocketBytes {
  import opened Bytes
  import opened WebSocketFrames
  import opened WebSocketConnection

  // ---------- masking, bit by bit ----------

  /** Bit `j` of a number, counted from the lowest. */
  predicate Bit(n: nat, j: nat)
    decreases j
  {
    if j == 0 then n % 2 == 1 else Bit(n / 2, j - 1)
  }

  lemma {:induction false} XorBit(a: nat, b: nat, bits: nat, j: nat)
    requires j < bits
    ensures Bit(XorBits(a, b, bits), j) <==> Bit(a, j) != Bit(b, j)
  {
    var low, high := (a + b) % 2, XorBits(a / 2, b / 2, bits - 1);
    assert (low + 2 * high) / 2 == high && (low + 2 * high) % 2 == low;
    if j > 0 {
      XorBit(a / 2, b / 2, bits - 1, j - 1);
    } else {
      LowBitOfSum(a, b);
    }
  }

  lemma LowBitOfSum(a: nat, b: nat)
    ensures (a + b) % 2 == 1 <==> (a % 2 == 1) != (b % 2 == 1)
  {
  }

  /** In octet `i` of a masked payload exactly the bits set in octet `i` modulo 4 of the key are flipped. */
  lemma MaskFlipsBits(payload: seq<Byte>, key: Key, i: nat, j: nat)
    requires i < |payload| && j < 8
    ensures Bit(ApplyMask(payload, key)[i], j) != Bit(payload[i], j) <==> Bit(key[i % 4], j)
  {
    TwoToEight();
    XorBit(payload[i], key[i % 4], 8, j);
  }

  // ---------- the decoder ----------

  /** Where the key or the payload begins, by the length form. */
  function LengthEnd(second: Byte): nat {
    if second % 128 == 126 then 4 else if second % 128 == 127 then 10 else 2
  }

  function TwoBytes(b1: nat, b0: nat): nat {
    256 * b1 + b0
  }

  function EightBytes(b7: nat, b6: nat, b5: nat, b4: nat, b3: nat, b2: nat, b1: nat, b0: nat): nat {
    0x100_0000_0000_0000 * b7 + 0x1_0000_0000_0000 * b6 + 0x100_0000_0000 * b5 + 0x1_0000_0000 * b4
    + 0x100_0000 * b3 + 0x1_0000 * b2 + 0x100 * b1 + b0
  }

  /** The payload length the header announces. */
  function Announced(data: seq<Byte>): nat
    requires |data| >= 2 && |data| >= LengthEnd(data[1])
  {
    if data[1] % 128 == 126 then TwoBytes(data[2], data[3])
    else if data[1] % 128 == 127 then
      EightBytes(data[2], data[3], data[4], data[5], data[6], data[7], data[8], data[9])
    else data[1] % 128
  }

  lemma EightBytesRead(s: seq<Byte>)
    requires |s| == 8
    ensures FromBigEndian(s) == EightBytes(s[0], s[1], s[2], s[3], s[4], s[5], s[6], s[7])
  {
    var four, six := s[..4], s[..6];
    TwoByteLength(s[..2]);
    LastTwo(four);
    LastTwo(six);
    LastTwo(s);
    assert four[..2] == s[..2] && six[..4] == four && s[..6] == six;
  }

  lemma LastTwo(s: seq<Byte>)
    requires |s| >= 2
    ensures FromBigEndian(s) == 0x1_0000 * FromBigEndian(s[..|s| - 2]) + TwoBytes(s[|s| - 2], s[|s| - 1])
  {
    var t := s[..|s| - 1];
    assert t[..|t| - 1] == s[..|s| - 2];
  }

  lemma AnnouncedRead(data: seq<Byte>)
    requires |data| >= 2 && |data| >= LengthEnd(data[1])
    ensures PayloadLength(data) == Announced(data)
  {
    if data[1] % 128 == 126 {
      TwoByteLength(data[2..4]);
    } else if data[1] % 128 == 127 {
      EightBytesRead(data[2..10]);
    }
  }

  /** Where the payload begins, and where the frame ends. */
  function PayloadStart(second: Byte): nat {
    LengthEnd(second) + if second >= 128 then 4 else 0
  }

  /**
   * When the decoder waits, refuses and finishes: it needs the length, refuses what is over 10 MB,
   * and otherwise needs the key and the whole payload.
   */
  lemma DecodeExactly(data: seq<Byte>)
    ensures |data| < 2 || |data| < LengthEnd(data[1]) ==> Decode(data) == NeedMore
    ensures |data| >= 2 && |data| >= LengthEnd(data[1]) ==>
              && (Decode(data).TooLarge? <==> Announced(data) > 10_485_760)
              && (Decode(data).Complete? <==>
                    Announced(data) <= 10_485_760 && |data| >= PayloadStart(data[1]) + Announced(data))
  {
    if |data| >= 2 && |data| >= LengthEnd(data[1]) {
      AnnouncedRead(data);
    }
  }

  lemma {:induction false} TopBit(n: nat, j: nat)
    requires n < TwoTo(j + 1)
    ensures Bit(n, j) <==> n >= TwoTo(j)
    decreases j
  {
    if j > 0 {
      TopBit(n / 2, j - 1);
    }
  }

  lemma TopBitOfByte(b: Byte)
    ensures Bit(b, 7) <==> b >= 128
  {
    TwoToEight();
    TopBit(b, 7);
  }

  /** What a finished frame says: its bits, its length and its end. */
  lemma FrameFields(data: seq<Byte>)
    requires Decode(data).Complete?
    ensures var f := Decode(data).frame;
            && (f.fin <==> Bit(data[0], 7))
            && f.opcode == data[0] % 16
            && |f.payload| == Announced(data)
            && Decode(data).consumed == PayloadStart(data[1]) + Announced(data)
  {
    DecodeExactly(data);
    AnnouncedRead(data);
    TopBitOfByte(data[0]);
  }

  /**
   * The octets of a finished frame: those of the buffer as they are, or with exactly the bits
   * flipped that are set in the octet of the key whose turn it is.
   */
  lemma FramePayload(data: seq<Byte>, i: nat, j: nat)
    requires Decode(data).Complete? && i < |Decode(data).frame.payload| && j < 8
    ensures var payload, h := Decode(data).frame.payload, LengthEnd(data[1]);
            if data[1] >= 128 then
              Bit(payload[i], j) != Bit(data[h + 4 + i], j) <==> Bit(data[h + i % 4], j)
            else payload[i] == data[h + i]
  {
    FrameFields(data);
    var h, len := LengthEnd(data[1]), |Decode(data).frame.payload|;
    if data[1] >= 128 {
      MaskFlipsBits(data[h + 4..h + 4 + len], data[h..h + 4], i, j);
    }
  }

  // ---------- the encoder ----------

  lemma MediumFrame(fin: bool, opcode: Byte, payload: seq<Byte>)
    requires opcode < 16 && 125 < |payload| <= 65535
    ensures var first, n := opcode + (if fin then 0x80 else 0), |payload|;
            Encode(Frame(fin, opcode, payload), Unmasked) == [first, 126, n / 256, n % 256] + payload
  {
    var n := |payload|;
    assert BigEndian(n / 256, 1) == [] + [ByteOf(n / 256)];
    assert BigEndian(n, 2) == [ByteOf(n / 256), ByteOf(n)];
  }

  /** The eight bytes of a long length, highest first. */
  lemma LongLength(n: nat)
    requires n < 0x1_0000_0000_0000_0000
    ensures var s := BigEndian(n, 8);
            EightBytes(s[0], s[1], s[2], s[3], s[4], s[5], s[6], s[7]) == n
  {
    CapacityValues();
    BigEndianRoundTrip(n, 8);
    EightBytesRead(BigEndian(n, 8));
  }

  lemma LongFrame(fin: bool, opcode: Byte, payload: seq<Byte>)
    requires opcode < 16 && 65535 < |payload|
    ensures var first, n := opcode + (if fin then 0x80 else 0), |payload|;
            Encode(Frame(fin, opcode, payload), Unmasked) == [first, 127] + BigEndian(n, 8) + payload
  {
    var length := BigEndian(|payload|, 8);
    assert [FirstByte(fin, opcode)] + ([127] + length) == [FirstByte(fin, opcode), 127] + length;
  }

  /** The bytes of the server's own frames, in the three length forms. */
  lemma ServerBytes(fin: bool, opcode: Byte, payload: seq<Byte>)
    requires opcode < 16
    ensures var first, n := opcode + (if fin then 0x80 else 0), |payload|;
            var frame := Encode(Frame(fin, opcode, payload), Unmasked);
            && (n <= 125 ==> frame == [first, n] + payload)
            && (125 < n <= 65535 ==> frame == [first, 126, n / 256, n % 256] + payload)
            && (65535 < n ==> frame == [first, 127] + BigEndian(n, 8) + payload)
  {
    if |payload| > 65535 {
      LongFrame(fin, opcode, payload);
    } else if |payload| > 125 {
      MediumFrame(fin, opcode, payload);
    }
  }

  // ---------- control frames ----------

  /** A ping is answered, on a link that works, with a pong that carries its payload. */
  lemma PingIsAnswered(c: Conn, fin: bool, payload: seq<Byte>)
    requires c.link.Healthy? && !c.closed && |payload| <= 125
    ensures AfterFrame(c, Frame(fin, 9, payload))
         == Outcome(c.(log := c.log + [Sent([0x8A, |payload|] + payload)]), true)
  {
    ServerBytes(true, 10, payload);
  }

  /** A pong is accepted and changes nothing, whatever the state. */
  lemma PongIsIgnored(c: Conn, fin: bool, payload: seq<Byte>)
    ensures AfterFrame(c, Frame(fin, 10, payload)) == Outcome(c, true)
  {
  }

  /** The reason that goes with status 1000, as text. */
  lemma NormalClosureText()
    ensures var text := "Normal closure";
            |NORMAL_CLOSURE| == |text| == 14
            && forall i :: 0 <= i < 14 ==> NORMAL_CLOSURE[i] == text[i] as int
  {
  }

  /** A close frame is answered once with a close frame of status 1000, refused, and closes. */
  lemma CloseIsAnswered(c: Conn, fin: bool, payload: seq<Byte>)
    requires c.link.Healthy? && !c.closed
    ensures var reply := [0x88, 16, 0x03, 0xE8] + NORMAL_CLOSURE;
            AfterFrame(c, Frame(fin, 8, payload))
            == Outcome(c.(log := c.log + [Sent(reply)], closed := true), false)
  {
    ServerBytes(true, 8, ClosePayload(1000, NORMAL_CLOSURE));
    assert [0x88, 16] + ([0x03, 0xE8] + NORMAL_CLOSURE) == [0x88, 16, 0x03, 0xE8] + NORMAL_CLOSURE;
  }

  /** A close frame on a closed connection, and every reserved control frame, is refused and changes nothing. */
  lemma OthersAreRefused(c: Conn, fin: bool, opcode: Byte, payload: seq<Byte>)
    requires 11 <= opcode <= 15 || (opcode == 8 && c.closed)
    ensures AfterFrame(c, Frame(fin, opcode, payload)) == Outcome(c, false)
  {
  }

  /** A link that fails on the answer to a ping or a close frame closes the connection; a ping is accepted still. */
  lemma AnswerFails(c: Conn, fin: bool, payload: seq<Byte>)
    requires c.link == Breaking(0) && !c.closed
    ensures AfterFrame(c, Frame(fin, 9, payload)) == Outcome(c.(closed := true), true)
    ensures AfterFrame(c, Frame(fin, 8, payload)) == Outcome(c.(closed := true), false)
  {
  }

  /** A link that will break counts the frames it still carries. */
  lemma AnswerCounts(c: Conn, fin: bool, payload: seq<Byte>)
    requires c.link.Breaking? && c.link.left > 0 && !c.closed && |payload| <= 125
    ensures AfterFrame(c, Frame(fin, 9, payload))
         == Outcome(c.(link := Breaking(c.link.left - 1), log := c.log + [Sent([0x8A, |payload|] + payload)]), true)
  {
    ServerBytes(true, 10, payload);
  }

  // ---------- data frames ----------

  /**
   * A data frame is accepted exactly if it continues what has begun or begins where nothing has;
   * the last one delivers all that has been collected, to a handler if there is one.
   */
  lemma DataFrames(c: Conn, fin: bool, opcode: Byte, payload: seq<Byte>)
    requires opcode < 8
    ensures var o := AfterFrame(c, Frame(fin, opcode, payload));
            var message := (if c.inFragmented then c.fragmentData else []) + payload;
            && (o.ok <==> (opcode == 0 <==> c.inFragmented))
            && (!o.ok ==> o.conn == c)
            && (o.ok ==>
                  && o.conn.inFragmented == !fin
                  && (c.inFragmented && fin ==> o.conn.fragmentData == [])
                  && (!fin ==> o.conn.fragmentData == message)
                  && o.conn.log == c.log + (if fin && c.hasHandler then [Delivered(message)] else [])
                  && o.conn == c.(inFragmented := o.conn.inFragmented, fragmentData := o.conn.fragmentData,
                                  fragmentOpcode := o.conn.fragmentOpcode, log := o.conn.log))
  {
    assert [] + payload == payload && c.log + [] == c.log;
  }
}
