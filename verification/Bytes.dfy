/** Octets, fixed-width integers in either byte order, and flattening of sequences. */
module Bytes {
  type Byte = b: int | 0 <= b < 256

  /** The low eight bits of `n`, as a narrowing cast takes them. */
  function ByteOf(n: nat): Byte {
    n % 256
  }

  // ---------- exclusive or ----------

  function Xor(a: Byte, b: Byte): (r: Byte) {
    TwoToEight();
    XorBits(a, b, 8)
  }

  /** Exclusive or of the low `bits` bits: in each position, the sum of the two bits modulo 2. */
  function XorBits(a: nat, b: nat, bits: nat): (r: nat)
    ensures r < TwoTo(bits)
  {
    if bits == 0 then 0 else (a + b) % 2 + 2 * XorBits(a / 2, b / 2, bits - 1)
  }

  function TwoTo(n: nat): nat {
    if n == 0 then 1 else 2 * TwoTo(n - 1)
  }

  lemma TwoToEight()
    ensures TwoTo(8) == 256
  {
    assert TwoTo(4) == 16;
  }

  /** Combining with the same bits twice changes nothing. */
  lemma {:induction false} XorTwice(a: nat, k: nat, bits: nat)
    requires a < TwoTo(bits)
    ensures XorBits(XorBits(a, k, bits), k, bits) == a
  {
    if bits > 0 {
      var low, high := (a + k) % 2, XorBits(a / 2, k / 2, bits - 1);
      var r := low + 2 * high;
      assert r / 2 == high;
      LowBitBack(a, k, high);
      XorTwice(a / 2, k / 2, bits - 1);
    }
  }

  lemma LowBitBack(a: nat, k: nat, high: nat)
    ensures ((a + k) % 2 + 2 * high + k) % 2 == a % 2
  {
  }

  // ---------- widths ----------

  /** 256 to the power `width`: one more than the largest value `width` bytes can hold. */
  function Capacity(width: nat): (c: nat)
    ensures c > 0
  {
    if width == 0 then 1 else 256 * Capacity(width - 1)
  }

  lemma CapacityValues()
    ensures Capacity(2) == 65536 && Capacity(4) == 0x1_0000_0000 && Capacity(8) == 0x1_0000_0000_0000_0000
  {
    assert Capacity(1) == 256;
    assert Capacity(3) == 256 * Capacity(2);
    assert Capacity(5) == 256 * Capacity(4);
    assert Capacity(7) == 256 * 256 * Capacity(5);
  }

  lemma {:induction false} CapacityMonotone(i: nat, j: nat)
    requires i <= j
    ensures Capacity(i) <= Capacity(j)
  {
    if i < j {
      CapacityMonotone(i, j - 1);
    }
  }

  // ---------- network byte order ----------

  function FromBigEndian(s: seq<Byte>): nat {
    if s == [] then 0 else 256 * FromBigEndian(s[..|s| - 1]) + s[|s| - 1]
  }

  function BigEndian(n: nat, width: nat): (s: seq<Byte>)
    ensures |s| == width
  {
    if width == 0 then [] else BigEndian(n / 256, width - 1) + [ByteOf(n)]
  }

  lemma {:induction false} BigEndianRoundTrip(n: nat, width: nat)
    requires n < Capacity(width)
    ensures FromBigEndian(BigEndian(n, width)) == n
  {
    if width > 0 {
      var s := BigEndian(n, width);
      assert s[..|s| - 1] == BigEndian(n / 256, width - 1);
      BigEndianRoundTrip(n / 256, width - 1);
    }
  }

  lemma {:induction false} FromBigEndianRoundTrip(s: seq<Byte>)
    ensures BigEndian(FromBigEndian(s), |s|) == s
    decreases |s|
  {
    if s != [] {
      var k := |s| - 1;
      assert FromBigEndian(s) / 256 == FromBigEndian(s[..k]) && FromBigEndian(s) % 256 == s[k];
      FromBigEndianRoundTrip(s[..k]);
    }
  }

  // ---------- little-endian byte order ----------

  function FromLittleEndian(s: seq<Byte>): nat {
    if s == [] then 0 else s[0] + 256 * FromLittleEndian(s[1..])
  }

  function LittleEndian(n: nat, width: nat): (s: seq<Byte>)
    ensures |s| == width
  {
    if width == 0 then [] else [ByteOf(n)] + LittleEndian(n / 256, width - 1)
  }

  lemma {:induction false} LittleEndianRoundTrip(n: nat, width: nat)
    requires n < Capacity(width)
    ensures FromLittleEndian(LittleEndian(n, width)) == n
  {
    if width > 0 {
      var s := LittleEndian(n, width);
      assert s[1..] == LittleEndian(n / 256, width - 1);
      LittleEndianRoundTrip(n / 256, width - 1);
    }
  }

  // ---------- flattening ----------

  function Concat<T>(parts: seq<seq<T>>): seq<T> {
    if parts == [] then [] else parts[0] + Concat(parts[1..])
  }

  lemma Regroup<T>(a: seq<T>, b: seq<T>, c: seq<T>)
    ensures a + b + c == a + (b + c)
  {
  }

  lemma {:induction false} ConcatAppend<T>(a: seq<seq<T>>, b: seq<seq<T>>)
    ensures Concat(a + b) == Concat(a) + Concat(b)
  {
    if a == [] {
      assert a + b == b;
    } else {
      assert (a + b)[1..] == a[1..] + b;
      ConcatAppend(a[1..], b);
    }
  }
}
