/**
 * The framing of messages between the client and the server: nine bytes of header and a body.
 * The server copies a packed structure, the client fills a buffer field by field.
 */
module WireProtocol {
  import opened Collections
  import opened Bytes

  const HEADER: nat := 9

  const TWO_TO_32: nat := 0x1_0000_0000

  datatype Header = Header(length: nat, kind: Byte, sequence: nat)

  datatype Message = Message(kind: Byte, sequence: nat, body: seq<Byte>)

  // ---------- what goes over the wire ----------

  /** The length and the sequence number are 32 bits wide, and cut down to that. */
  function HeaderOf(m: Message): Header {
    Header(|m.body| % TWO_TO_32, m.kind, m.sequence % TWO_TO_32)
  }

  function HeaderBytes(h: Header): (s: seq<Byte>)
    ensures |s| == HEADER
  {
    LittleEndian(h.length, 4) + [h.kind] + LittleEndian(h.sequence, 4)
  }

  function Wire(m: Message): seq<Byte> {
    HeaderBytes(HeaderOf(m)) + m.body
  }

  function Wires(messages: seq<Message>): seq<Byte> {
    if messages == [] then [] else Wire(messages[0]) + Wires(messages[1..])
  }

  function ParseHeader(data: seq<Byte>): Option<Header> {
    if |data| < HEADER then None
    else Some(Header(FromLittleEndian(data[..4]), data[4], FromLittleEndian(data[5..9])))
  }

  datatype First = NotYet | Whole(message: Message, end: nat)

  /** The first message of a stream and where it ends, if it is all there. */
  function ReadOne(stream: seq<Byte>): First {
    match ParseHeader(stream)
    case None => NotYet
    case Some(h) =>
      var end := HEADER + h.length;
      if |stream| < end then NotYet else Whole(Message(h.kind, h.sequence, stream[HEADER..end]), end)
  }

  /** The messages a stream begins with, and the bytes after the last whole one. */
  function ReadAll(stream: seq<Byte>): Reading
    decreases |stream|
  {
    match ReadOne(stream)
    case NotYet => Reading([], stream)
    case Whole(m, end) => Prepend([m], ReadAll(stream[end..]))
  }

  datatype Reading = Reading(messages: seq<Message>, rest: seq<Byte>)

  function Prepend(messages: seq<Message>, r: Reading): Reading {
    Reading(messages + r.messages, r.rest)
  }

  // ---------- writing, in place ----------

  /** Writes bytes over a part of the buffer. */
  method CopyInto(buffer: array<Byte>, at: nat, bytes: seq<Byte>)
    requires at + |bytes| <= buffer.Length
    modifies buffer
    ensures buffer[..] == old(buffer[..at]) + bytes + old(buffer[at + |bytes|..])
  {
    var i := 0;
    while i < |bytes|
      invariant i <= |bytes|
      invariant buffer[..] == old(buffer[..at]) + bytes[..i] + old(buffer[at + i..])
    {
      ghost var before := buffer[..];
      buffer[at + i] := bytes[i];
      assert buffer[..] == before[at + i := bytes[i]];
      i := i + 1;
    }
    assert bytes[..i] == bytes;
  }

  /** Protocol::serialize: the packed header as it lies in the memory of a little-endian host, then the body. */
  method ServerSerialize(kind: Byte, sequence: nat, body: seq<Byte>) returns (buffer: array<Byte>)
    requires sequence < TWO_TO_32
    ensures fresh(buffer) && buffer[..] == Wire(Message(kind, sequence, body))
  {
    buffer := new Byte[HEADER + |body|];
    var header := Header(|body| % TWO_TO_32, kind, sequence);
    CopyInto(buffer, 0, HeaderBytes(header));
    assert buffer[..HEADER] == HeaderBytes(header);
    CopyInto(buffer, HEADER, body);
    WireOf(kind, sequence, body);
    assert buffer[..] == HeaderBytes(header) + body;
  }

  lemma WireOf(kind: Byte, sequence: nat, body: seq<Byte>)
    ensures Wire(Message(kind, sequence, body))
         == HeaderBytes(Header(|body| % TWO_TO_32, kind, sequence % TWO_TO_32)) + body
    ensures sequence < TWO_TO_32 ==> sequence % TWO_TO_32 == sequence
  {
  }

  /** ByteData.setUint32, little-endian. */
  method SetUint32(buffer: array<Byte>, at: nat, value: nat)
    requires at + 4 <= buffer.Length
    modifies buffer
    ensures buffer[..] == old(buffer[..at]) + LittleEndian(value % TWO_TO_32, 4) + old(buffer[at + 4..])
  {
    buffer[at] := ByteOf(value);
    buffer[at + 1] := ByteOf(value / 256);
    buffer[at + 2] := ByteOf(value / 256 / 256);
    buffer[at + 3] := ByteOf(value / 256 / 256 / 256);
    FourBytes(value);
  }

  /** Protocol.serialize of the client; there a sequence number can be of any size. */
  method ClientSerialize(kind: Byte, sequence: nat, body: seq<Byte>) returns (buffer: array<Byte>)
    ensures fresh(buffer) && buffer[..] == Wire(Message(kind, sequence, body))
  {
    buffer := new Byte[HEADER + |body|];
    var length := LittleEndian(|body| % TWO_TO_32, 4);
    SetUint32(buffer, 0, |body|);
    assert buffer[..4] == length;
    buffer[4] := kind;
    assert buffer[..5] == length + [kind];
    SetUint32(buffer, 5, sequence);
    assert buffer[..HEADER] == length + [kind] + LittleEndian(sequence % TWO_TO_32, 4);
    CopyInto(buffer, HEADER, body);
  }

  lemma FourBytes(value: nat)
    ensures LittleEndian(value % TWO_TO_32, 4)
         == [ByteOf(value), ByteOf(value / 256), ByteOf(value / 256 / 256), ByteOf(value / 256 / 256 / 256)]
  {
    var v, q := value % TWO_TO_32, value / TWO_TO_32;
    OneByteDown(value, v, q * 0x100_0000);
    OneByteDown(value / 256, v / 256, q * 0x1_0000);
    OneByteDown(value / 256 / 256, v / 256 / 256, q * 0x100);
    OneByteDown(value / 256 / 256 / 256, v / 256 / 256 / 256, q);
    LittleEndianOfFour(v);
  }

  lemma OneByteDown(n: nat, m: nat, k: nat)
    requires n == m + 256 * k
    ensures ByteOf(n) == ByteOf(m) && n / 256 == m / 256 + k
  {
  }

  lemma LittleEndianOfFour(n: nat)
    ensures LittleEndian(n, 4) == [ByteOf(n), ByteOf(n / 256), ByteOf(n / 256 / 256), ByteOf(n / 256 / 256 / 256)]
  {
    assert LittleEndian(n / 256 / 256 / 256, 1) == [ByteOf(n / 256 / 256 / 256)] + [];
    assert LittleEndian(n / 256 / 256, 2) == [ByteOf(n / 256 / 256)] + LittleEndian(n / 256 / 256 / 256, 1);
    assert LittleEndian(n / 256, 3) == [ByteOf(n / 256)] + LittleEndian(n / 256 / 256, 2);
  }

  // ---------- the layout, byte by byte ----------

  function FourBytesValue(b0: nat, b1: nat, b2: nat, b3: nat): nat {
    b0 + 0x100 * b1 + 0x1_0000 * b2 + 0x100_0000 * b3
  }

  /** Four bytes of length, lowest first, one of type, four of sequence number, lowest first, and the body. */
  lemma WireLayout(m: Message)
    ensures var s, n, q := Wire(m), |m.body|, m.sequence;
            && |s| == 9 + n && s[9..] == m.body && s[4] == m.kind
            && s[..4] == [n % 256, n / 256 % 256, n / 256 / 256 % 256, n / 256 / 256 / 256 % 256]
            && s[5..9] == [q % 256, q / 256 % 256, q / 256 / 256 % 256, q / 256 / 256 / 256 % 256]
  {
    FourBytes(|m.body|);
    FourBytes(m.sequence);
    assert Wire(m)[..4] == LittleEndian(|m.body| % TWO_TO_32, 4);
    assert Wire(m)[5..9] == LittleEndian(m.sequence % TWO_TO_32, 4);
  }

  lemma FourBytesRead(s: seq<Byte>)
    requires |s| == 4
    ensures FromLittleEndian(s) == FourBytesValue(s[0], s[1], s[2], s[3])
  {
    var three := s[1..];
    var two := three[1..];
    var one := two[1..];
    assert one == [s[3]] && one[1..] == [];
    assert FromLittleEndian(one) == s[3];
    assert FromLittleEndian(two) == two[0] + 256 * FromLittleEndian(one) && two[0] == s[2];
    assert FromLittleEndian(three) == three[0] + 256 * FromLittleEndian(two) && three[0] == s[1];
  }

  /** A header is there exactly when nine bytes are, and says what they say. */
  lemma HeaderLayout(data: seq<Byte>)
    ensures |data| < 9 ==> ParseHeader(data) == None
    ensures |data| >= 9 ==>
              ParseHeader(data) == Some(Header(FourBytesValue(data[0], data[1], data[2], data[3]), data[4],
                                               FourBytesValue(data[5], data[6], data[7], data[8])))
  {
    if |data| >= 9 {
      FourBytesRead(data[..4]);
      FourBytesRead(data[5..9]);
    }
  }

  /** A message is read once its header and as many bytes as that announces are there, and ends with them. */
  lemma FirstExactly(stream: seq<Byte>)
    ensures var first := ReadOne(stream);
            (first.Whole? <==> |stream| >= 9 && |stream| >= 9 + ParseHeader(stream).value.length)
            && (first.Whole? ==>
                  var h := ParseHeader(stream).value;
                  && first.end == 9 + h.length && first.message.body == stream[9..9 + h.length]
                  && first.message.kind == h.kind && first.message.sequence == h.sequence)
  {
  }

  // ---------- reading is the inverse of writing ----------

  /** The fields of the header are wide enough for this message. */
  predicate Fits(m: Message) {
    |m.body| < TWO_TO_32 && m.sequence < TWO_TO_32
  }

  lemma HeaderRoundTrip(m: Message, rest: seq<Byte>)
    ensures ParseHeader(Wire(m) + rest) == Some(HeaderOf(m))
  {
    var h, s := HeaderOf(m), Wire(m) + rest;
    CapacityValues();
    LittleEndianRoundTrip(h.length, 4);
    LittleEndianRoundTrip(h.sequence, 4);
    assert s[..4] == LittleEndian(h.length, 4);
    assert s[5..9] == LittleEndian(h.sequence, 4);
  }

  lemma ReadOneWire(m: Message, rest: seq<Byte>)
    requires Fits(m)
    ensures ReadOne(Wire(m) + rest) == Whole(m, |Wire(m)|)
  {
    HeaderRoundTrip(m, rest);
    assert (Wire(m) + rest)[HEADER..HEADER + |m.body|] == m.body;
  }

  lemma ReadFirst(m: Message, rest: seq<Byte>)
    requires Fits(m)
    ensures ReadAll(Wire(m) + rest) == Prepend([m], ReadAll(rest))
  {
    ReadOneWire(m, rest);
    assert (Wire(m) + rest)[|Wire(m)|..] == rest;
  }

  lemma PrependBoth(a: seq<Message>, b: seq<Message>, r: Reading)
    ensures Prepend(a, Prepend(b, r)) == Prepend(a + b, r)
    ensures Prepend([], r) == r
  {
    assert a + (b + r.messages) == a + b + r.messages;
    assert [] + r.messages == r.messages;
  }

  lemma ReadFirstOf(messages: seq<Message>, rest: seq<Byte>)
    requires messages != [] && Fits(messages[0])
    ensures ReadAll(Wires(messages) + rest) == Prepend([messages[0]], ReadAll(Wires(messages[1..]) + rest))
  {
    var m, tail := messages[0], Wires(messages[1..]) + rest;
    assert Wires(messages) + rest == Wire(m) + tail;
    ReadFirst(m, tail);
  }

  /** Reading what was written returns every message, and what follows is read after them. */
  lemma {:induction false} ReadWires(messages: seq<Message>, rest: seq<Byte>)
    requires forall m :: m in messages ==> Fits(m)
    ensures ReadAll(Wires(messages) + rest) == Prepend(messages, ReadAll(rest))
  {
    if messages == [] {
      assert Wires(messages) + rest == rest;
      PrependBoth([], [], ReadAll(rest));
    } else {
      ReadFirstOf(messages, rest);
      ReadWires(messages[1..], rest);
      PrependBoth([messages[0]], messages[1..], ReadAll(rest));
      assert [messages[0]] + messages[1..] == messages;
    }
  }

  lemma ReadExactly(messages: seq<Message>)
    requires forall m :: m in messages ==> Fits(m)
    ensures ReadAll(Wires(messages)) == Reading(messages, [])
  {
    ReadWires(messages, []);
    assert Wires(messages) + [] == Wires(messages);
    assert messages + [] == messages;
  }

  /** A message comes back whole if and only if it fits the header. */
  lemma RoundTripExactly(m: Message)
    ensures ReadAll(Wire(m)) == Reading([m], []) <==> Fits(m)
  {
    assert Wire(m) + [] == Wire(m);
    if Fits(m) {
      ReadFirst(m, []);
      assert [m] + [] == [m];
    } else {
      HeaderRoundTrip(m, []);
      var r := ReadAll(Wire(m));
      if r.messages != [] {
        assert r.messages[0].sequence == HeaderOf(m).sequence && |r.messages[0].body| == HeaderOf(m).length;
      }
    }
  }

  /** No two lists of messages look the same on the wire. */
  lemma UniquelyDecodable(a: seq<Message>, b: seq<Message>)
    requires (forall m :: m in a ==> Fits(m)) && (forall m :: m in b ==> Fits(m))
    requires Wires(a) == Wires(b)
    ensures a == b
  {
    ReadExactly(a);
    ReadExactly(b);
  }

  // ---------- however the stream is cut ----------

  lemma ReadOneStable(a: seq<Byte>, b: seq<Byte>)
    requires ReadOne(a).Whole?
    ensures ReadOne(a + b) == ReadOne(a)
  {
    assert (a + b)[..4] == a[..4] && (a + b)[5..9] == a[5..9];
    var end := ReadOne(a).end;
    assert (a + b)[HEADER..end] == a[HEADER..end];
  }

  lemma {:induction false} ReadAppend(a: seq<Byte>, b: seq<Byte>)
    ensures ReadAll(a + b) == Prepend(ReadAll(a).messages, ReadAll(ReadAll(a).rest + b))
    decreases |a|
  {
    match ReadOne(a)
    case NotYet =>
      PrependBoth([], [], ReadAll(a + b));
    case Whole(m, end) =>
      ReadOneStable(a, b);
      assert (a + b)[end..] == a[end..] + b;
      ReadAppend(a[end..], b);
      PrependBoth([m], ReadAll(a[end..]).messages, ReadAll(ReadAll(a).rest + b));
  }

  /** A receiver that keeps what it could not read yet. */
  function Receive(held: seq<Byte>, chunks: seq<seq<Byte>>): Reading
    decreases |chunks|
  {
    if chunks == [] then Reading([], held)
    else
      var now := ReadAll(held + chunks[0]);
      Prepend(now.messages, Receive(now.rest, chunks[1..]))
  }

  /** However the stream is cut, what is received is what the whole stream holds. */
  lemma {:induction false} ReceiveIsReadAll(held: seq<Byte>, chunks: seq<seq<Byte>>)
    requires ReadOne(held).NotYet?
    ensures Receive(held, chunks) == ReadAll(held + Concat(chunks))
    decreases |chunks|
  {
    if chunks == [] {
      assert held + [] == held;
    } else {
      var first, rest := held + chunks[0], chunks[1..];
      RestIsUnfinished(first);
      ReceiveIsReadAll(ReadAll(first).rest, rest);
      ReadAppend(first, Concat(rest));
      Regroup(held, chunks[0], Concat(rest));
    }
  }

  /** What is left over is one message that has not fully arrived. */
  lemma {:induction false} RestIsUnfinished(stream: seq<Byte>)
    ensures var rest := ReadAll(stream).rest;
            && ReadOne(rest).NotYet?
            && (|rest| >= HEADER ==> |rest| < HEADER + ParseHeader(rest).value.length)
    decreases |stream|
  {
    if ReadOne(stream).Whole? {
      RestIsUnfinished(stream[ReadOne(stream).end..]);
    }
  }

  /** Messages written by either peer, cut anywhere, are received once each, in order and unaltered. */
  lemma EndToEnd(messages: seq<Message>, chunks: seq<seq<Byte>>)
    requires forall m :: m in messages ==> Fits(m)
    requires Concat(chunks) == Wires(messages)
    ensures Receive([], chunks) == Reading(messages, [])
  {
    ReceiveIsReadAll([], chunks);
    assert [] + Concat(chunks) == Wires(messages);
    ReadExactly(messages);
  }

  // ---------- the two receivers, in place ----------

  /** The value of the client's message type number `i`, in the order they are declared. */
  function KindAt(i: nat): Byte
    requires i < 85
  {
    if i < 6 then i + 1
    else if i < 14 then i + 4
    else if i < 28 then i + 6
    else if i < 33 then i + 12
    else if i < 60 then i + 17
    else if i < 64 then i + 20
    else if i < 66 then i + 26
    else if i < 68 then i + 34
    else if i < 74 then i + 42
    else if i < 76 then i + 46
    else if i < 78 then i + 54
    else if i < 84 then i + 62
    else 255
  }

  function Kinds(): seq<Byte> {
    seq(85, i requires 0 <= i < 85 => KindAt(i))
  }

  const HEARTBEAT_RESPONSE: Byte := 101
  const ERROR: Byte := 255

  /** The first type with this value, `error` when there is none. */
  method FromValue(value: Byte) returns (kind: Byte)
    ensures kind == KindOf(value)
  {
    var kinds := Kinds();
    for i := 0 to |kinds|
      invariant value !in kinds[..i]
    {
      if kinds[i] == value {
        return kinds[i];
      }
    }
    return ERROR;
  }

  function KindOf(value: Byte): Byte {
    if value in Kinds() then value else ERROR
  }

  /** What the client makes of a message. */
  datatype Event = Heartbeat | Notified(kind: Byte, sequence: nat, body: seq<Byte>)

  function EventOf(m: Message): Event {
    var kind := KindOf(m.kind);
    if kind == HEARTBEAT_RESPONSE then Heartbeat else Notified(kind, m.sequence, m.body)
  }

  function EventsOf(messages: seq<Message>): seq<Event> {
    seq(|messages|, i requires 0 <= i < |messages| => EventOf(messages[i]))
  }

  /** The types the client knows. */
  predicate IsKnown(kind: Byte) {
    || 1 <= kind <= 6 || 10 <= kind <= 17 || 20 <= kind <= 33 || 40 <= kind <= 44 || 50 <= kind <= 76
    || 80 <= kind <= 83 || 90 <= kind <= 91 || 100 <= kind <= 101 || 110 <= kind <= 115 || 120 <= kind <= 121
    || 130 <= kind <= 131 || 140 <= kind <= 145 || kind == 255
  }

  /** Where a known type stands among the others. */
  function Place(kind: Byte): nat
    requires IsKnown(kind)
  {
    if kind <= 6 then kind - 1
    else if kind <= 17 then kind - 4
    else if kind <= 33 then kind - 6
    else if kind <= 44 then kind - 12
    else if kind <= 76 then kind - 17
    else if kind <= 83 then kind - 20
    else if kind <= 91 then kind - 26
    else if kind <= 101 then kind - 34
    else if kind <= 115 then kind - 42
    else if kind <= 121 then kind - 46
    else if kind <= 131 then kind - 54
    else if kind <= 145 then kind - 62
    else 84
  }

  lemma KnownKinds(kind: Byte)
    ensures kind in Kinds() <==> IsKnown(kind)
  {
    if IsKnown(kind) {
      assert Kinds()[Place(kind)] == KindAt(Place(kind)) == kind;
    } else {
      assert forall i :: 0 <= i < 85 ==> IsKnown(KindAt(i));
    }
  }

  /**
   * The client is told the sender's own type and sequence number and the body as it came; a type it
   * does not know is told as 255, and a response to its heartbeat, 101, is not told but noted.
   */
  lemma EventExactly(m: Message)
    ensures EventOf(m) == if m.kind == 101 then Heartbeat
                          else Notified(if IsKnown(m.kind) then m.kind else 255, m.sequence, m.body)
  {
    KnownKinds(m.kind);
  }

  /** The client buffers whatever arrives and takes whole messages off its front. */
  class NetworkService {
    var buffer: seq<Byte>
    var events: seq<Event>

    constructor ()
      ensures buffer == [] && events == []
    {
      buffer, events := [], [];
    }

    method OnData(data: seq<Byte>)
      modifies this
      ensures var r := ReadAll(old(buffer) + data);
              events == old(events) + EventsOf(r.messages) && buffer == r.rest
    {
      buffer := buffer + data;
      ghost var all, done := buffer, [];
      PrependBoth([], [], ReadAll(buffer));
      while |buffer| >= HEADER
        invariant events == old(events) + EventsOf(done)
        invariant ReadSoFar(all, done, buffer)
        decreases |buffer|
      {
        var header := ParseHeader(buffer[..HEADER]).value;
        HeaderAlone(buffer);
        var end := HEADER + header.length;
        if |buffer| < end {
          break;
        }
        var body := buffer[HEADER..end];
        ghost var message := Message(header.kind, header.sequence, body);
        OneRead(all, done, buffer);
        assert ReadOne(buffer) == Whole(message, end);
        buffer := buffer[end..];
        Handle(header, body);
        EventsAppend(done, message);
        done := done + [message];
      }
      NothingRead(all, done, buffer);
    }

    method Handle(header: Header, body: seq<Byte>)
      modifies this`events
      ensures events == old(events) + [EventOf(Message(header.kind, header.sequence, body))]
    {
      var kind := FromValue(header.kind);
      if kind == HEARTBEAT_RESPONSE {
        events := events + [Heartbeat];
      } else {
        events := events + [Notified(kind, header.sequence, body)];
      }
    }
  }

  /** After these messages have been read off a stream, this much of it is held. */
  ghost predicate ReadSoFar(all: seq<Byte>, done: seq<Message>, held: seq<Byte>) {
    ReadAll(all) == Prepend(done, ReadAll(held))
  }

  lemma ReadMore(all: seq<Byte>, done: seq<Message>, held: seq<Byte>, read: seq<Message>, next: seq<Byte>)
    requires ReadSoFar(all, done, held) && ReadSoFar(held, read, next)
    ensures ReadSoFar(all, done + read, next)
  {
    PrependBoth(done, read, ReadAll(next));
  }

  lemma OneRead(all: seq<Byte>, done: seq<Message>, held: seq<Byte>)
    requires ReadSoFar(all, done, held) && ReadOne(held).Whole?
    ensures ReadSoFar(all, done + [ReadOne(held).message], held[ReadOne(held).end..])
  {
    PrependBoth(done, [ReadOne(held).message], ReadAll(held[ReadOne(held).end..]));
  }

  lemma NothingRead(all: seq<Byte>, done: seq<Message>, held: seq<Byte>)
    requires ReadSoFar(all, done, held) && ReadOne(held).NotYet?
    ensures ReadAll(all) == Reading(done, held)
  {
    assert done + [] == done;
  }

  lemma EventsAppend(done: seq<Message>, m: Message)
    ensures EventsOf(done + [m]) == EventsOf(done) + [EventOf(m)]
  {
  }

  lemma HeaderAlone(s: seq<Byte>)
    requires |s| >= HEADER
    ensures ParseHeader(s[..HEADER]) == ParseHeader(s)
  {
    assert s[..HEADER][..4] == s[..4] && s[..HEADER][5..9] == s[5..9];
  }

  /** The server waits for nine bytes, then for as many as they announce, and so on. */
  class SessionReader {
    var headerBuffer: seq<Byte>
    var inBody: bool
    var incoming: seq<Byte>          // has arrived at the socket and is not read yet
    var handled: seq<Message>

    /** What has arrived and is not part of a handled message. */
    ghost function Held(): seq<Byte>
      reads this
    {
      if inBody then headerBuffer + incoming else incoming
    }

    ghost predicate Valid()
      reads this
    {
      inBody ==> |headerBuffer| == HEADER
    }

    constructor ()
      ensures Valid() && Held() == [] && handled == []
    {
      headerBuffer, inBody, incoming, handled := [], false, [], [];
    }

    /** do_read_header: nine bytes, if they are there. */
    method ReadHeader() returns (ready: bool)
      requires Valid() && !inBody
      modifies this
      ensures Valid() && Held() == old(Held()) && handled == old(handled)
      ensures inBody == ready == (|Held()| >= HEADER) && |incoming| <= old(|incoming|)
    {
      ready := |incoming| >= HEADER;
      if ready {
        assert incoming == incoming[..HEADER] + incoming[HEADER..];
        headerBuffer, incoming, inBody := incoming[..HEADER], incoming[HEADER..], true;
      }
    }

    /** do_read_body: the bytes the header announces, if they are there. */
    method ReadBody() returns (ready: bool)
      requires Valid() && inBody
      modifies this
      ensures Valid() && ready == ReadOne(old(Held())).Whole? == !inBody
      ensures !ready ==> Held() == old(Held()) && handled == old(handled)
      ensures ready ==> var first := ReadOne(old(Held()));
                        Held() == old(Held())[first.end..] && handled == old(handled) + [first.message]
      ensures |incoming| <= old(|incoming|)
    {
      var header := ParseHeader(headerBuffer).value;
      ghost var held := Held();
      assert held[..HEADER] == headerBuffer;
      HeaderAlone(held);
      ready := |incoming| >= header.length;
      if ready {
        var body := incoming[..header.length];
        assert held[HEADER..HEADER + header.length] == body;
        assert held[HEADER + header.length..] == incoming[header.length..];
        handled := handled + [Message(header.kind, header.sequence, body)];
        incoming, inBody := incoming[header.length..], false;
      }
    }

    /** The read that is due, if it can complete; `read` is what it hands over. */
    method ReadNext() returns (ready: bool, ghost read: seq<Message>)
      requires Valid()
      modifies this
      ensures Valid() && handled == old(handled) + read
      ensures ReadSoFar(old(Held()), read, Held())
      ensures !ready ==> ReadOne(Held()).NotYet?
      ensures ready ==> |Held()| < old(|Held()|) || (|Held()| == old(|Held()|) && inBody && !old(inBody))
    {
      read := [];
      PrependBoth([], [], ReadAll(Held()));
      if !inBody {
        ready := ReadHeader();
      } else {
        ghost var held := Held();
        ready := ReadBody();
        if ready {
          OneRead(held, [], held);
          read := [] + [ReadOne(held).message];
        }
      }
    }

    /** Bytes arrive at the socket. */
    method Arrive(data: seq<Byte>)
      requires Valid()
      modifies this`incoming
      ensures Valid() && Held() == old(Held()) + data
    {
      incoming := incoming + data;
    }

    /** Reads as long as the read that is due can complete. */
    method ReadOn() returns (ghost done: seq<Message>)
      requires Valid()
      modifies this
      ensures Valid() && handled == old(handled) + done
      ensures ReadAll(old(Held())) == Reading(done, Held())
    {
      ghost var all := Held();
      done := [];
      PrependBoth([], [], ReadAll(all));
      var ready := true;
      while ready
        invariant Valid() && handled == old(handled) + done
        invariant ReadSoFar(all, done, Held())
        invariant !ready ==> ReadOne(Held()).NotYet?
        decreases ready, |Held()|, !inBody
      {
        ghost var held := Held();
        ghost var read;
        ready, read := ReadNext();
        ReadMore(all, done, held, read, Held());
        done := done + read;
      }
      NothingRead(all, done, Held());
    }

    /** Bytes arrive, and the reads that can complete do. */
    method OnData(data: seq<Byte>)
      requires Valid()
      modifies this
      ensures Valid()
      ensures var r := ReadAll(old(Held()) + data);
              handled == old(handled) + r.messages && Held() == r.rest
    {
      Arrive(data);
      ghost var done := ReadOn();
    }
  }
}
