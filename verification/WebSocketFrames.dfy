/**
 * The frame format of section 5.2 of RFC 6455, as the server reads and writes it:
 * a decoder that works on a growing buffer, an encoder, and how they fit together.
 */
module WebSocketFrames {
  import opened Bytes

  /** The largest payload the decoder accepts: 10 MB. */
  const MAX_PAYLOAD: nat := 10 * 1024 * 1024

  datatype Frame = Frame(fin: bool, opcode: Byte, payload: seq<Byte>)

  type Key = k: seq<Byte> | |k| == 4 witness [0, 0, 0, 0]

  datatype Masking = Unmasked | Masked(key: Key)

  datatype Decoded =
    | NeedMore                                // the buffer holds only a prefix of a frame
    | TooLarge                                // the announced length is over the limit
    | Complete(frame: Frame, consumed: nat)   // a whole frame, and how many bytes it took

  /** How many bytes of extended length follow the second header byte. */
  function ExtensionSize(second: Byte): nat {
    var len := second % 128;
    if len == 126 then 2 else if len == 127 then 8 else 0
  }

  predicate IsMasked(second: Byte) {
    second >= 128
  }

  function PayloadLength(data: seq<Byte>): nat
    requires |data| >= 2 && |data| >= 2 + ExtensionSize(data[1])
  {
    var ext := ExtensionSize(data[1]);
    if ext == 0 then data[1] % 128 else FromBigEndian(data[2..2 + ext])
  }

  function HeaderSize(second: Byte): nat {
    2 + ExtensionSize(second) + if IsMasked(second) then 4 else 0
  }

  /** Masking and unmasking are the same operation. */
  function ApplyMask(payload: seq<Byte>, key: Key): seq<Byte> {
    seq(|payload|, i requires 0 <= i < |payload| => Xor(payload[i], key[i % 4]))
  }

  function Decode(data: seq<Byte>): Decoded {
    if |data| < 2 || |data| < 2 + ExtensionSize(data[1]) then
      NeedMore
    else
      var len := PayloadLength(data);
      var header := HeaderSize(data[1]);
      if len > MAX_PAYLOAD then
        TooLarge
      else if |data| < header + len then
        NeedMore
      else
        Complete(Frame(data[0] >= 128, data[0] % 16, PayloadAt(data, header, len)), header + len)
  }

  /** The payload behind a header of `header` bytes, whose last four are the key when masked. */
  function PayloadAt(data: seq<Byte>, header: nat, len: nat): (payload: seq<Byte>)
    requires 2 <= |data| && header == HeaderSize(data[1]) && header + len <= |data|
    ensures |payload| == len
  {
    var raw := data[header..header + len];
    if IsMasked(data[1]) then ApplyMask(raw, data[header - 4..header]) else raw
  }

  /** The length field in its shortest form; `maskBit` is 128 on a masked frame and 0 otherwise. */
  function LengthField(len: nat, maskBit: nat): (s: seq<Byte>)
    requires maskBit in {0, 128}
    ensures |s| == if len <= 125 then 1 else if len <= 65535 then 3 else 9
  {
    if len <= 125 then [len + maskBit]
    else if len <= 65535 then [126 + maskBit] + BigEndian(len, 2)
    else [127 + maskBit] + BigEndian(len, 8)
  }

  function FirstByte(fin: bool, opcode: Byte): Byte {
    opcode % 16 + if fin then 128 else 0
  }

  /** The bytes of one frame; the server sends unmasked frames, clients may mask. */
  function Encode(f: Frame, masking: Masking): seq<Byte> {
    match masking
    case Unmasked =>
      [FirstByte(f.fin, f.opcode)] + LengthField(|f.payload|, 0) + f.payload
    case Masked(key) =>
      [FirstByte(f.fin, f.opcode)] + LengthField(|f.payload|, 128) + key + ApplyMask(f.payload, key)
  }

  // ---------- the decoder on a growing buffer ----------

  /** A complete frame at the front of a buffer consumes something, but no more than there is. */
  lemma DecodeConsumes(data: seq<Byte>)
    ensures var d := Decode(data);
            d.Complete? ==> 2 <= d.consumed <= |data| && |d.frame.payload| <= MAX_PAYLOAD
  {
  }

  /** Once the decoder has made up its mind, further bytes do not change it. */
  lemma DecodePrefixStable(data: seq<Byte>, more: seq<Byte>)
    requires !Decode(data).NeedMore?
    ensures Decode(data + more) == Decode(data)
  {
    var whole := data + more;
    var ext := ExtensionSize(data[1]);
    assert whole[2..2 + ext] == data[2..2 + ext];
    if Decode(data).Complete? {
      PayloadPrefixStable(data, more, HeaderSize(data[1]), PayloadLength(data));
    }
  }

  lemma PayloadPrefixStable(data: seq<Byte>, more: seq<Byte>, header: nat, len: nat)
    requires 2 <= |data| && header == HeaderSize(data[1]) && header + len <= |data|
    ensures PayloadAt(data + more, header, len) == PayloadAt(data, header, len)
  {
    var whole := data + more;
    assert whole[header..header + len] == data[header..header + len];
    if IsMasked(data[1]) {
      assert whole[header - 4..header] == data[header - 4..header];
    }
  }

  /** While the decoder waits, the buffer is shorter than the largest header and payload. */
  lemma WaitingIsBounded(data: seq<Byte>)
    requires Decode(data).NeedMore?
    ensures |data| < 14 + MAX_PAYLOAD
  {
  }

  // ---------- round trip ----------

  lemma LengthFieldRead(len: nat, maskBit: nat, first: Byte, rest: seq<Byte>)
    requires maskBit in {0, 128} && len < Capacity(8)
    ensures var data := [first] + LengthField(len, maskBit) + rest;
            && |data| >= 2 + ExtensionSize(data[1])
            && 2 + ExtensionSize(data[1]) == 1 + |LengthField(len, maskBit)|
            && PayloadLength(data) == len
            && (IsMasked(data[1]) <==> maskBit == 128)
  {
    var data := [first] + LengthField(len, maskBit) + rest;
    SecondByteRead(len, maskBit);
    assert data[1] == LengthField(len, maskBit)[0];
    if len > 125 {
      var width := if len <= 65535 then 2 else 8;
      assert data[2..2 + width] == BigEndian(len, width);
      ExtendedLengthRead(len, width);
    }
  }

  lemma SecondByteRead(len: nat, maskBit: nat)
    requires maskBit in {0, 128}
    ensures var second := LengthField(len, maskBit)[0];
            && (IsMasked(second) <==> maskBit == 128)
            && ExtensionSize(second) == |LengthField(len, maskBit)| - 1
            && (len <= 125 ==> second % 128 == len)
  {
  }

  lemma ExtendedLengthRead(len: nat, width: nat)
    requires (width == 2 && len <= 65535) || (width == 8 && len < Capacity(8))
    ensures FromBigEndian(BigEndian(len, width)) == len
  {
    CapacityValues();
    BigEndianRoundTrip(len, width);
  }

  lemma MaskTwice(payload: seq<Byte>, key: Key)
    ensures ApplyMask(ApplyMask(payload, key), key) == payload
  {
    forall i | 0 <= i < |payload|
      ensures Xor(Xor(payload[i], key[i % 4]), key[i % 4]) == payload[i]
    {
      TwoToEight();
      XorTwice(payload[i], key[i % 4], 8);
    }
  }

  lemma FirstByteRead(fin: bool, opcode: Byte)
    requires opcode < 16
    ensures FirstByte(fin, opcode) >= 128 <==> fin
    ensures FirstByte(fin, opcode) % 16 == opcode
  {
  }

  lemma DecodeUnmasked(f: Frame, rest: seq<Byte>)
    requires f.opcode < 16 && |f.payload| < Capacity(8)
    ensures Decode(Encode(f, Unmasked) + rest)
         == if |f.payload| <= MAX_PAYLOAD then Complete(f, |Encode(f, Unmasked)|) else TooLarge
  {
    var len, first := |f.payload|, FirstByte(f.fin, f.opcode);
    var data := Encode(f, Unmasked) + rest;
    assert data == [first] + LengthField(len, 0) + (f.payload + rest);
    LengthFieldRead(len, 0, first, f.payload + rest);
    FirstByteRead(f.fin, f.opcode);
    var header := 1 + |LengthField(len, 0)|;
    assert header == HeaderSize(data[1]);
    assert PayloadAt(data, header, len) == data[header..header + len] == f.payload;
  }

  lemma MaskedPayload(data: seq<Byte>, before: seq<Byte>, payload: seq<Byte>, key: Key, rest: seq<Byte>)
    requires data == before + (key + ApplyMask(payload, key) + rest)
    requires |data| >= 2 && IsMasked(data[1]) && HeaderSize(data[1]) == |before| + 4
    ensures PayloadAt(data, |before| + 4, |payload|) == payload
  {
    var header := |before| + 4;
    assert data[header - 4..header] == key;
    assert data[header..header + |payload|] == ApplyMask(payload, key);
    MaskTwice(payload, key);
  }

  lemma DecodeMasked(f: Frame, key: Key, rest: seq<Byte>)
    requires f.opcode < 16 && |f.payload| < Capacity(8)
    ensures Decode(Encode(f, Masked(key)) + rest)
         == if |f.payload| <= MAX_PAYLOAD then Complete(f, |Encode(f, Masked(key))|) else TooLarge
  {
    var len, first := |f.payload|, FirstByte(f.fin, f.opcode);
    var before, after := [first] + LengthField(len, 128), key + ApplyMask(f.payload, key) + rest;
    var data := Encode(f, Masked(key)) + rest;
    assert data == before + after;
    LengthFieldRead(len, 128, first, after);
    FirstByteRead(f.fin, f.opcode);
    MaskedPayload(data, before, f.payload, key, rest);
  }

  /** Decoding what was encoded gives the frame back and stops exactly at its end. */
  lemma DecodeEncode(f: Frame, masking: Masking, rest: seq<Byte>)
    requires f.opcode < 16 && |f.payload| < Capacity(8)
    ensures Decode(Encode(f, masking) + rest)
         == if |f.payload| <= MAX_PAYLOAD then Complete(f, |Encode(f, masking)|) else TooLarge
  {
    match masking {
      case Unmasked => DecodeUnmasked(f, rest);
      case Masked(key) => DecodeMasked(f, key, rest);
    }
  }

  /** No accepted encoding of a frame, masked or not, is shorter than the one the encoder picks. */
  lemma EncodeIsShortest(data: seq<Byte>, masking: Masking)
    requires Decode(data).Complete?
    requires IsMasked(data[1]) <==> masking.Masked?
    ensures |Encode(Decode(data).frame, masking)| <= Decode(data).consumed
  {
    if ExtensionSize(data[1]) == 2 {
      TwoBytesBound(data[2..4]);
    }
  }

  lemma TwoBytesBound(s: seq<Byte>)
    requires |s| == 2
    ensures FromBigEndian(s) <= 65535
  {
    assert s[..1][..0] == [];
    assert FromBigEndian(s[..1]) == s[0];
  }

  // ---------- the loops of the codec ----------

  lemma TwoByteLength(s: seq<Byte>)
    requires |s| == 2
    ensures FromBigEndian(s) == 256 * (s[0] as nat) + s[1]
  {
    assert s[..1][..0] == [];
    assert FromBigEndian(s[..1]) == s[0];
  }

  /** Shifts the eight length bytes into a 64-bit accumulator; no bit is ever lost. */
  method ReadLength(s: seq<Byte>) returns (n: nat)
    requires |s| == 8
    ensures n == FromBigEndian(s)
  {
    n := 0;
    for i := 0 to 8
      invariant n == FromBigEndian(s[..i]) && n < Capacity(i)
    {
      assert s[..i + 1][..i] == s[..i];
      ShiftFits(n, i);
      n := (256 * n) % 0x1_0000_0000_0000_0000 + s[i];
    }
    assert s[..8] == s;
  }

  lemma ShiftFits(n: nat, i: nat)
    requires i < 8 && n < Capacity(i)
    ensures 256 * n + 255 < Capacity(i + 1) <= 0x1_0000_0000_0000_0000
  {
    CapacityMonotone(i + 1, 8);
    CapacityValues();
  }

  /** `n` shifted right by `k` bytes. */
  function ShiftedRight(n: nat, k: nat): nat {
    if k == 0 then n else ShiftedRight(n / 256, k - 1)
  }

  lemma {:induction false} ShiftOneMore(n: nat, k: nat)
    ensures ShiftedRight(n, k) / 256 == ShiftedRight(n, k + 1)
  {
    if k > 0 {
      ShiftOneMore(n / 256, k - 1);
    }
  }

  /** Pushes the eight length bytes, most significant first. */
  method WriteLength(n: nat) returns (s: seq<Byte>)
    ensures s == BigEndian(n, 8)
  {
    s := [];
    for i := 8 downto 0
      invariant s == BigEndian(ShiftedRight(n, i), 8 - i)
    {
      ShiftOneMore(n, i);
      s := s + [ByteOf(ShiftedRight(n, i))];
    }
  }

  /** Unmasks byte by byte. */
  method Unmask(raw: seq<Byte>, key: Key) returns (payload: seq<Byte>)
    ensures payload == ApplyMask(raw, key)
  {
    payload := [];
    for i := 0 to |raw|
      invariant payload == ApplyMask(raw, key)[..i]
    {
      payload := payload + [Xor(raw[i], key[i % 4])];
    }
  }
}
