/**
 * The base64 decoder of media uploads, a bit accumulator in a 32-bit integer, against the
 * encoding of section 4 of RFC 4648; and the size check in front of it.
 */
module Base64 {
  import opened Bytes

  // ---------- the alphabet ----------

  /** The value of a symbol of the alphabet, -1 for any other character. */
  function Sextet(c: Byte): int {
    if c == 43 then 62
    else if c == 47 then 63
    else if 48 <= c <= 57 then c - 48 + 52
    else if 65 <= c <= 90 then c - 65
    else if 97 <= c <= 122 then c - 97 + 26
    else -1
  }

  function Symbol(n: nat): Byte
    requires n < 64
  {
    if n < 26 then 65 + n
    else if n < 52 then 97 + n - 26
    else if n < 62 then 48 + n - 52
    else if n == 62 then 43
    else 47
  }

  lemma SymbolRoundTrip(n: nat)
    requires n < 64
    ensures Sextet(Symbol(n)) == n
  {
  }

  const PAD: Byte := 61

  const LETTERS: string := "ABCDEFGHIJKLMNOPQRSTUVWXYZ"
  const SMALL_LETTERS: string := "abcdefghijklmnopqrstuvwxyz"

  /** The symbols are those of table 1 of RFC 4648, in its order, and the padding is its equals sign. */
  lemma SymbolsOfTheStandard(n: nat)
    requires n < 64
    ensures |LETTERS| == |SMALL_LETTERS| == 26
    ensures n < 26 ==> Symbol(n) == LETTERS[n] as int
    ensures 26 <= n < 52 ==> Symbol(n) == SMALL_LETTERS[n - 26] as int
    ensures 52 <= n < 62 ==> Symbol(n) == "0123456789"[n - 52] as int
    ensures Symbol(62) == '+' as int && Symbol(63) == '/' as int && PAD == '=' as int
  {
  }

  /** A character outside the alphabet has no value, and one within it the value of its place. */
  lemma SextetExactly(c: Byte)
    ensures Sextet(c) == -1 || (0 <= Sextet(c) < 64 && Symbol(Sextet(c)) == c)
    ensures Sextet(c) == -1 <==> forall n :: 0 <= n < 64 ==> Symbol(n) != c
  {
    if Sextet(c) == -1 {
      forall n | 0 <= n < 64 ensures Symbol(n) != c {
        SymbolRoundTrip(n);
      }
    } else {
      assert Symbol(Sextet(c)) == c;
    }
  }

  // ---------- the decoder ----------

  /** A 32-bit signed integer after an operation whose exact result is `n`. */
  function Wrap(n: int): int {
    (n + 0x8000_0000) % 0x1_0000_0000 - 0x8000_0000
  }

  /** The bits of `val` moved down by `shift` places, filling with the sign. */
  function ShiftRight(val: int, shift: nat): (r: int)
    ensures val >= 0 ==> r >= 0
    decreases shift
  {
    if shift == 0 then val else ShiftRight(val / 2, shift - 1)
  }

  /** `(val >> shift) & 0xFF`. */
  function ByteAt(val: int, shift: nat): Byte {
    ShiftRight(val, shift) % 256
  }

  datatype Accumulator = Accumulator(decoded: seq<Byte>, val: int, valb: int)

  const START := Accumulator([], 0, -8)

  function Take(a: Accumulator, sextet: int): Accumulator {
    var val, valb := Wrap(Wrap(a.val * 64) + sextet), a.valb + 6;
    if valb >= 0 then Accumulator(a.decoded + [ByteAt(val, valb)], val, valb - 8)
    else Accumulator(a.decoded, val, valb)
  }

  /** How many characters there are before the first one outside the alphabet. */
  function Run(encoded: seq<Byte>): (n: nat)
    ensures n <= |encoded|
    ensures forall i :: 0 <= i < n ==> Sextet(encoded[i]) != -1
    ensures n < |encoded| ==> Sextet(encoded[n]) == -1
  {
    if encoded == [] || Sextet(encoded[0]) == -1 then 0 else 1 + Run(encoded[1..])
  }

  function Accumulate(symbols: seq<Byte>): Accumulator {
    if symbols == [] then START
    else Take(Accumulate(symbols[..|symbols| - 1]), Sextet(symbols[|symbols| - 1]))
  }

  function LeadingRun(encoded: seq<Byte>): (symbols: seq<Byte>)
    ensures forall c :: c in symbols ==> Sextet(c) != -1
  {
    encoded[..Run(encoded)]
  }

  function Decode(encoded: seq<Byte>): seq<Byte> {
    Accumulate(LeadingRun(encoded)).decoded
  }

  method Base64Decode(encoded: seq<Byte>) returns (decoded: seq<Byte>)
    ensures decoded == Decode(encoded)
  {
    decoded := [];
    var val, valb := 0, -8;
    var i := 0;
    while i < |encoded| && Sextet(encoded[i]) != -1
      invariant i <= Run(encoded)
      invariant Accumulate(encoded[..i]) == Accumulator(decoded, val, valb)
    {
      AccumulateNext([], encoded, i);
      assert [] + encoded[..i] == encoded[..i] && [] + encoded[..i + 1] == encoded[..i + 1];
      val := Wrap(Wrap(val * 64) + Sextet(encoded[i]));
      valb := valb + 6;
      if valb >= 0 {
        decoded := decoded + [ByteAt(val, valb)];
        valb := valb - 8;
      }
      i := i + 1;
    }
  }

  // ---------- what the decoder computes ----------

  /** The symbols read as one number in base 64. */
  function Number(symbols: seq<Byte>): nat
    requires forall c :: c in symbols ==> Sextet(c) != -1
  {
    if symbols == [] then 0
    else 64 * Number(symbols[..|symbols| - 1]) + Sextet(symbols[|symbols| - 1])
  }

  lemma ShiftTwice(val: int, shift: nat)
    ensures ShiftRight(val, shift + 2) == ShiftRight(val / 4, shift)
  {
    assert val / 2 / 2 == val / 4;
  }

  lemma ShiftValues(val: int)
    ensures ShiftRight(val, 0) == val
    ensures ShiftRight(val, 2) == val / 4
    ensures ShiftRight(val, 4) == val / 16
    ensures ShiftRight(val, 6) == val / 64
  {
    ShiftTwice(val, 0);
    ShiftTwice(val, 2);
    ShiftTwice(val / 4, 0);
    ShiftTwice(val, 4);
    ShiftTwice(val / 4, 2);
    ShiftTwice(val / 4 / 4, 0);
    DividedAgain(val);
  }

  lemma DividedAgain(val: int)
    ensures val / 4 / 4 == val / 16 && val / 16 / 4 == val / 64
  {
  }

  /** The eight bits taken out are not among those the 32-bit accumulator has lost. */
  lemma LostBitsDoNotMatter(exact: int, val: int, shift: nat)
    requires Wrap(exact) == Wrap(val) && shift in {0, 2, 4}
    ensures ByteAt(exact, shift) == ByteAt(val, shift)
  {
    ShiftValues(exact);
    ShiftValues(val);
    var m := WrapDistance(exact, val);
    assert exact == val + 256 * 16 * (m * 0x10_0000);
    MultipleOf256(val, m * 0x10_0000);
  }

  lemma MultipleOf256(val: int, m: int)
    ensures (val + 256 * 16 * m) % 256 == val % 256
    ensures (val + 256 * 16 * m) / 4 % 256 == val / 4 % 256
    ensures (val + 256 * 16 * m) / 16 % 256 == val / 16 % 256
  {
    Low(val + 256 * 16 * m, val / 256 + 16 * m, val % 256);
    Quarter(val + 256 * 16 * m, val / 4 + 256 * (4 * m), val % 4);
    Low(val / 4 + 256 * (4 * m), val / 4 / 256 + 4 * m, val / 4 % 256);
    Sixteenth(val + 256 * 16 * m, val / 16 + 256 * m, val % 16);
    Low(val / 16 + 256 * m, val / 16 / 256 + m, val / 16 % 256);
  }

  lemma Low(n: int, q: int, r: int)
    requires n == 256 * q + r && 0 <= r < 256
    ensures n % 256 == r
  {
  }

  lemma Quarter(n: int, q: int, r: int)
    requires n == 4 * q + r && 0 <= r < 4
    ensures n / 4 == q
  {
  }

  lemma Sixteenth(n: int, q: int, r: int)
    requires n == 16 * q + r && 0 <= r < 16
    ensures n / 16 == q
  {
  }

  /** How often the range of 32 bits fits between two numbers that agree in them. */
  lemma WrapDistance(a: int, b: int) returns (m: int)
    requires Wrap(a) == Wrap(b)
    ensures a == b + m * 0x1_0000_0000
  {
    m := (a + 0x8000_0000) / 0x1_0000_0000 - (b + 0x8000_0000) / 0x1_0000_0000;
  }

  lemma WrapAround(n: int, m: int)
    ensures Wrap(n + m * 0x1_0000_0000) == Wrap(n)
  {
    var q, r := (n + 0x8000_0000) / 0x1_0000_0000, (n + 0x8000_0000) % 0x1_0000_0000;
    Remainder(n + 0x8000_0000 + m * 0x1_0000_0000, q + m, r);
  }

  lemma Remainder(n: int, q: int, r: int)
    requires n == 0x1_0000_0000 * q + r && 0 <= r < 0x1_0000_0000
    ensures n % 0x1_0000_0000 == r
  {
  }

  lemma WrapOnce(exact: int, val: int, sextet: int)
    requires Wrap(exact) == Wrap(val)
    ensures Wrap(Wrap(val * 64) + sextet) == Wrap(64 * exact + sextet)
    ensures Wrap(Wrap(64 * exact + sextet)) == Wrap(64 * exact + sextet)
  {
    WrapTwice(val * 64, sextet);
    var m := WrapDistance(exact, val);
    assert 64 * exact + sextet == val * 64 + sextet + (64 * m) * 0x1_0000_0000;
    WrapAround(val * 64 + sextet, 64 * m);
    WrapTwice(64 * exact + sextet, 0);
  }

  lemma WrapTwice(n: int, added: int)
    ensures Wrap(Wrap(n) + added) == Wrap(n + added)
  {
    var q := (n + 0x8000_0000) / 0x1_0000_0000;
    assert Wrap(n) + added == n + added + (-q) * 0x1_0000_0000;
    WrapAround(n + added, -q);
  }

  lemma NoneUnread(exact: nat, sextet: nat)
    requires sextet < 64
    ensures ShiftRight(64 * exact + sextet, 6) == exact
  {
    ShiftValues(64 * exact + sextet);
  }

  lemma TwoUnread(exact: nat, sextet: nat)
    requires sextet < 64
    ensures 256 * ShiftRight(exact, 2) + ByteAt(64 * exact + sextet, 0) == ShiftRight(64 * exact + sextet, 0)
  {
    ShiftValues(exact);
    Low(64 * exact + sextet, exact / 4, 64 * (exact % 4) + sextet);
  }

  lemma FourUnread(exact: nat, sextet: nat)
    requires sextet < 64
    ensures 256 * ShiftRight(exact, 4) + ByteAt(64 * exact + sextet, 2) == ShiftRight(64 * exact + sextet, 2)
  {
    var r := 16 * (exact % 16) + sextet / 4;
    ShiftValues(exact);
    ShiftValues(64 * exact + sextet);
    Quarter(64 * exact + sextet, 256 * (exact / 16) + r, sextet % 4);
    Low(256 * (exact / 16) + r, exact / 16, r);
  }

  lemma SixUnread(exact: nat, sextet: nat)
    requires sextet < 64
    ensures 256 * ShiftRight(exact, 6) + ByteAt(64 * exact + sextet, 4) == ShiftRight(64 * exact + sextet, 4)
  {
    var r := 4 * (exact % 64) + sextet / 16;
    ShiftValues(exact);
    ShiftValues(64 * exact + sextet);
    Sixteenth(64 * exact + sextet, 256 * (exact / 64) + r, sextet % 16);
    Low(256 * (exact / 64) + r, exact / 64, r);
  }

  /** One more symbol, in exact arithmetic: `unread` bits of `exact` are not in `before` yet. */
  lemma OneMoreSymbol(exact: nat, before: nat, unread: nat, sextet: nat)
    requires unread in {0, 2, 4, 6} && sextet < 64
    requires before == ShiftRight(exact, unread)
    ensures unread == 0 ==> before == ShiftRight(64 * exact + sextet, 6)
    ensures unread > 0 ==>
              256 * before + ByteAt(64 * exact + sextet, unread - 2) == ShiftRight(64 * exact + sextet, unread - 2)
  {
    if unread == 0 {
      NoneUnread(exact, sextet);
      assert ShiftRight(exact, 0) == exact;
    } else if unread == 2 {
      TwoUnread(exact, sextet);
    } else if unread == 4 {
      FourUnread(exact, sextet);
    } else {
      SixUnread(exact, sextet);
    }
  }

  /** How many bits of `n` symbols do not fill an octet, and what one more symbol makes of them. */
  lemma UnreadBits(n: nat)
    ensures 6 * n % 8 in {0, 2, 4, 6}
    ensures 6 * (n + 1) / 8 == 6 * n / 8 + if 6 * n % 8 == 0 then 0 else 1
    ensures 6 * (n + 1) % 8 == if 6 * n % 8 == 0 then 6 else 6 * n % 8 - 2
  {
    assert n == 4 * (n / 4) + n % 4;
  }

  /** What the accumulator holds after `n` symbols that read as the number `exact`. */
  ghost predicate Holds(a: Accumulator, n: nat, exact: nat) {
    && |a.decoded| == 6 * n / 8
    && a.valb == 6 * n % 8 - 8
    && Wrap(a.val) == Wrap(exact)
    && FromBigEndian(a.decoded) == ShiftRight(exact, 6 * n % 8)
  }

  lemma TakeHolds(a: Accumulator, n: nat, exact: nat, sextet: nat)
    requires Holds(a, n, exact) && sextet < 64
    ensures Holds(Take(a, sextet), n + 1, 64 * exact + sextet)
  {
    var unread, next := 6 * n % 8, Take(a, sextet);
    var more := 64 * exact + sextet;
    UnreadBits(n);
    OneMoreSymbol(exact, FromBigEndian(a.decoded), unread, sextet);
    WrapOnce(exact, a.val, sextet);
    assert Wrap(next.val) == Wrap(more);
    if unread > 0 {
      LostBitsDoNotMatter(more, next.val, unread - 2);
      assert next.decoded[..|a.decoded|] == a.decoded;
    }
  }

  lemma {:induction false} AccumulateHolds(symbols: seq<Byte>)
    requires forall c :: c in symbols ==> Sextet(c) != -1
    ensures Holds(Accumulate(symbols), |symbols|, Number(symbols))
  {
    if symbols != [] {
      var before := symbols[..|symbols| - 1];
      assert forall c :: c in before ==> c in symbols;
      AccumulateHolds(before);
      TakeHolds(Accumulate(before), |before|, Number(before), Sextet(symbols[|symbols| - 1]));
    }
  }

  /** The number, without the last bits that do not fill an octet. */
  function WholeOctets(symbols: seq<Byte>): nat
    requires forall c :: c in symbols ==> Sextet(c) != -1
  {
    ShiftRight(Number(symbols), 6 * |symbols| % 8)
  }

  /**
   * For every input: the leading run of symbols, read as one number and rid of the bits that do
   * not fill an octet, is written out in octets, although the accumulator wraps.
   */
  lemma DecodeIsTheNumber(encoded: seq<Byte>)
    ensures Decode(encoded) == BigEndian(WholeOctets(LeadingRun(encoded)), 6 * Run(encoded) / 8)
  {
    AccumulateHolds(LeadingRun(encoded));
    FromBigEndianRoundTrip(Decode(encoded));
  }

  // ---------- the standard's encoding ----------

  /** The four symbols of three octets. */
  function Group(x: Byte, y: Byte, z: Byte): (g: seq<Byte>)
    ensures |g| == 4 && forall c :: c in g ==> Sextet(c) != -1
  {
    [Symbol(x / 4), Symbol(x % 4 * 16 + y / 16), Symbol(y % 16 * 4 + z / 64), Symbol(z % 64)]
  }

  function Encode(b: seq<Byte>): seq<Byte> {
    if b == [] then []
    else if |b| == 1 then Group(b[0], 0, 0)[..2] + [PAD, PAD]
    else if |b| == 2 then Group(b[0], b[1], 0)[..3] + [PAD]
    else Group(b[0], b[1], b[2]) + Encode(b[3..])
  }

  lemma {:induction false} RunSplit(s: seq<Byte>, t: seq<Byte>)
    requires forall c :: c in s ==> Sextet(c) != -1
    ensures Run(s + t) == |s| + Run(t)
  {
    if s == [] {
      assert s + t == t;
    } else {
      assert (s + t)[1..] == s[1..] + t;
      RunSplit(s[1..], t);
    }
  }

  lemma LongerByAGroup(n: nat)
    requires n >= 3
    ensures (n + 2) / 3 == (n - 3 + 2) / 3 + 1
    ensures (8 * n + 5) / 6 == (8 * (n - 3) + 5) / 6 + 4
  {
  }

  lemma EncodedShort(b: seq<Byte>)
    requires |b| < 3
    ensures |Encode(b)| == (if b == [] then 0 else 4)
    ensures Run(Encode(b)) == if b == [] then 0 else |b| + 1
  {
    if |b| == 1 {
      RunSplit(Group(b[0], 0, 0)[..2], [PAD, PAD]);
    } else if |b| == 2 {
      RunSplit(Group(b[0], b[1], 0)[..3], [PAD]);
    }
  }

  lemma {:induction false} EncodedLength(b: seq<Byte>)
    ensures |Encode(b)| == (|b| + 2) / 3 * 4
    ensures Run(Encode(b)) == (8 * |b| + 5) / 6
    decreases |b|
  {
    if |b| < 3 {
      EncodedShort(b);
    } else {
      LongerByAGroup(|b|);
      EncodedLength(b[3..]);
      RunSplit(Group(b[0], b[1], b[2]), Encode(b[3..]));
    }
  }

  // ---------- decoding an encoding ----------

  lemma FirstOctet(w: int, x: Byte, y: Byte)
    ensures ByteAt(64 * (64 * w + x / 4) + (x % 4 * 16 + y / 16), 4) == x
  {
    ShiftValues(64 * (64 * w + x / 4) + (x % 4 * 16 + y / 16));
    Sixteenth(64 * (64 * w + x / 4) + (x % 4 * 16 + y / 16), 256 * w + x, y / 16);
    Low(256 * w + x, w, x);
  }

  lemma SecondOctet(w: int, y: Byte, z: Byte)
    ensures ByteAt(64 * (16 * w + y / 16) + (y % 16 * 4 + z / 64), 2) == y
  {
    ShiftValues(64 * (16 * w + y / 16) + (y % 16 * 4 + z / 64));
    Quarter(64 * (16 * w + y / 16) + (y % 16 * 4 + z / 64), 256 * w + y, z / 64);
    Low(256 * w + y, w, y);
  }

  lemma ThirdOctet(w: int, z: Byte)
    ensures ByteAt(64 * (4 * w + z / 64) + z % 64, 0) == z
  {
    Low(64 * (4 * w + z / 64) + z % 64, w, z);
  }

  /** A symbol taken when the accumulator agrees with `exact` in its 32 bits. */
  lemma TakeExact(a: Accumulator, exact: int, sextet: int)
    requires Wrap(a.val) == Wrap(exact) && a.valb in {-8, -6, -4, -2}
    ensures var next := Take(a, sextet);
            && Wrap(next.val) == Wrap(64 * exact + sextet)
            && next.valb == (if a.valb == -8 then -2 else a.valb - 2)
            && next.decoded == if a.valb == -8 then a.decoded
                               else a.decoded + [ByteAt(64 * exact + sextet, a.valb + 6)]
  {
    WrapOnce(exact, a.val, sextet);
    if a.valb != -8 {
      LostBitsDoNotMatter(64 * exact + sextet, Take(a, sextet).val, a.valb + 6);
    }
  }

  /** After a whole number of groups, two, three or four symbols give one, two or three octets. */
  lemma TakeGroup(a: Accumulator, x: Byte, y: Byte, z: Byte)
    requires a.valb == -8
    ensures var two := Take(Take(a, x / 4), x % 4 * 16 + y / 16);
            var three := Take(two, y % 16 * 4 + z / 64);
            var four := Take(three, z % 64);
            && two.decoded == a.decoded + [x]
            && three.decoded == a.decoded + [x] + [y]
            && four.decoded == a.decoded + [x] + [y] + [z] && four.valb == -8
  {
    var one := Take(a, x / 4);
    var two := Take(one, x % 4 * 16 + y / 16);
    var three := Take(two, y % 16 * 4 + z / 64);
    var e1 := 64 * a.val + x / 4;
    var e2 := 64 * e1 + (x % 4 * 16 + y / 16);
    var e3 := 64 * e2 + (y % 16 * 4 + z / 64);
    TakeExact(a, a.val, x / 4);
    TakeExact(one, e1, x % 4 * 16 + y / 16);
    TakeExact(two, e2, y % 16 * 4 + z / 64);
    TakeExact(three, e3, z % 64);
    FirstOctet(a.val, x, y);
    SecondOctet(4 * e1 + x % 4, y, z);
    ThirdOctet(16 * e2 + y % 16, z);
  }

  lemma AccumulateNext(before: seq<Byte>, s: seq<Byte>, k: nat)
    requires k < |s|
    ensures Accumulate(before + s[..k + 1]) == Take(Accumulate(before + s[..k]), Sextet(s[k]))
  {
    assert (before + s[..k + 1])[..|before| + k] == before + s[..k];
  }

  /** After the symbols `before`, the symbols `more` bring out these octets. */
  ghost predicate BringsOut(before: seq<Byte>, more: seq<Byte>, octets: seq<Byte>) {
    Accumulate(before + more).decoded == Accumulate(before).decoded + octets
  }

  lemma BringsOutBoth(before: seq<Byte>, a: seq<Byte>, x: seq<Byte>, b: seq<Byte>, y: seq<Byte>)
    requires BringsOut(before, a, x) && BringsOut(before + a, b, y)
    ensures BringsOut(before, a + b, x + y)
  {
    assert before + (a + b) == before + a + b;
  }

  lemma GroupStates(before: seq<Byte>, x: Byte, y: Byte, z: Byte)
    ensures var a, g := Accumulate(before), Group(x, y, z);
            var two := Take(Take(a, x / 4), x % 4 * 16 + y / 16);
            && Accumulate(before + g[..2]) == two
            && Accumulate(before + g[..3]) == Take(two, y % 16 * 4 + z / 64)
            && Accumulate(before + g) == Take(Take(two, y % 16 * 4 + z / 64), z % 64)
  {
    var g := Group(x, y, z);
    SymbolRoundTrip(x / 4);
    SymbolRoundTrip(x % 4 * 16 + y / 16);
    SymbolRoundTrip(y % 16 * 4 + z / 64);
    SymbolRoundTrip(z % 64);
    assert before + g[..0] == before && g[..4] == g;
    AccumulateNext(before, g, 0);
    AccumulateNext(before, g, 1);
    AccumulateNext(before, g, 2);
    AccumulateNext(before, g, 3);
  }

  lemma AccumulateGroup(before: seq<Byte>, x: Byte, y: Byte, z: Byte)
    requires Accumulate(before).valb == -8
    ensures BringsOut(before, Group(x, y, z)[..2], [x])
    ensures BringsOut(before, Group(x, y, z)[..3], [x, y])
    ensures BringsOut(before, Group(x, y, z), [x, y, z])
    ensures Accumulate(before + Group(x, y, z)).valb == -8
  {
    var decoded := Accumulate(before).decoded;
    TakeGroup(Accumulate(before), x, y, z);
    GroupStates(before, x, y, z);
    assert decoded + [x] + [y] == decoded + [x, y];
    assert decoded + [x] + [y] + [z] == decoded + [x, y, z];
  }

  /** The symbols of an encoding, without its padding. */
  function Symbols(b: seq<Byte>): seq<Byte> {
    EncodedLength(b);
    Encode(b)[..(8 * |b| + 5) / 6]
  }

  lemma SymbolsOfGroups(b: seq<Byte>)
    ensures b == [] ==> Symbols(b) == []
    ensures |b| == 1 ==> Symbols(b) == Group(b[0], 0, 0)[..2]
    ensures |b| == 2 ==> Symbols(b) == Group(b[0], b[1], 0)[..3]
    ensures |b| >= 3 ==> Symbols(b) == Group(b[0], b[1], b[2]) + Symbols(b[3..])
  {
    EncodedLength(b);
    if |b| >= 3 {
      LongerByAGroup(|b|);
      EncodedLength(b[3..]);
    }
  }

  lemma DecodeShort(before: seq<Byte>, b: seq<Byte>)
    requires Accumulate(before).valb == -8 && |b| < 3
    ensures BringsOut(before, Symbols(b), b)
  {
    SymbolsOfGroups(b);
    if b == [] {
      assert before + [] == before;
    } else if |b| == 1 {
      AccumulateGroup(before, b[0], 0, 0);
      assert b == [b[0]];
    } else {
      AccumulateGroup(before, b[0], b[1], 0);
      assert b == [b[0], b[1]];
    }
  }

  lemma {:induction false} DecodeSymbols(before: seq<Byte>, b: seq<Byte>)
    requires Accumulate(before).valb == -8
    ensures BringsOut(before, Symbols(b), b)
    decreases |b|
  {
    if |b| < 3 {
      DecodeShort(before, b);
    } else {
      var first, rest := b[..3], b[3..];
      var g := Group(b[0], b[1], b[2]);
      SymbolsOfGroups(b);
      AccumulateGroup(before, b[0], b[1], b[2]);
      DecodeSymbols(before + g, rest);
      assert [b[0], b[1], b[2]] == first;
      BringsOutBoth(before, g, first, Symbols(rest), rest);
      assert b == first + rest;
    }
  }

  /** Decoding the standard's encoding of any octets returns them. */
  lemma DecodeEncode(b: seq<Byte>)
    ensures Decode(Encode(b)) == b
  {
    EncodedLength(b);
    DecodeSymbols([], b);
    assert [] + Symbols(b) == Symbols(b);
  }

  /** The last four symbols of an encoding. */
  function LastGroup(b: seq<Byte>): (e: seq<Byte>)
    requires b != []
    ensures |e| == 4
  {
    EncodedLength(b);
    Encode(b)[|Encode(b)| - 4..]
  }

  /** A group of which one or two octets are there: equals signs for the others, after bits that are all zero. */
  predicate EndsAfter(group: seq<Byte>, octets: nat)
    requires |group| == 4
  {
    && (octets == 1 ==> group[2..] == [61, 61] && Sextet(group[1]) % 16 == 0)
    && (octets == 2 ==> group[3] == 61 && Sextet(group[2]) % 4 == 0)
  }

  lemma EndOfShort(b: seq<Byte>)
    requires 0 < |b| < 3
    ensures |Encode(b)| == 4 && EndsAfter(Encode(b), |b|)
  {
    if |b| == 1 {
      SymbolRoundTrip(b[0] % 4 * 16);
    } else {
      SymbolRoundTrip(b[1] % 16 * 4);
    }
  }

  /** An encoding ends in as many equals signs as fill its last group. */
  lemma {:induction false} EncodingEnds(b: seq<Byte>)
    requires |b| % 3 != 0
    ensures EndsAfter(LastGroup(b), |b| % 3)
    decreases |b|
  {
    if |b| < 3 {
      EndOfShort(b);
      assert LastGroup(b) == Encode(b);
    } else {
      EncodingEnds(b[3..]);
      SameLastGroup(b);
    }
  }

  lemma SameLastGroup(b: seq<Byte>)
    requires |b| > 3
    ensures LastGroup(b) == LastGroup(b[3..])
  {
    EncodedLength(b[3..]);
    assert Encode(b) == Group(b[0], b[1], b[2]) + Encode(b[3..]);
  }

  // ---------- uploads ----------

  const MAX_FILE_SIZE: nat := 10 * 1024 * 1024

  datatype Reason = NotAuthenticated | FieldMissing | TooLarge | NotBase64

  datatype Verdict = Refused(code: nat, reason: Reason) | Accepted(file: seq<Byte>)

  /** What an upload comes to before anything is written to disk. */
  method HandleMediaUpload(authenticated: bool, fileName: string, data: seq<Byte>) returns (v: Verdict)
    ensures v == Upload(authenticated, fileName, data)
  {
    if !authenticated {
      return Refused(401, NotAuthenticated);
    }
    if fileName == "" || data == [] {
      return Refused(400, FieldMissing);
    }
    if |data| > MAX_FILE_SIZE * 4 / 3 {
      return Refused(400, TooLarge);
    }
    var file := Base64Decode(data);
    if file == [] {
      return Refused(400, NotBase64);
    }
    return Accepted(file);
  }

  function Upload(authenticated: bool, fileName: string, data: seq<Byte>): Verdict {
    if !authenticated then Refused(401, NotAuthenticated)
    else if fileName == "" || data == [] then Refused(400, FieldMissing)
    else if |data| > MAX_FILE_SIZE * 4 / 3 then Refused(400, TooLarge)
    else if Decode(data) == [] then Refused(400, NotBase64)
    else Accepted(Decode(data))
  }

  /** An upload is accepted exactly when it begins with two symbols and is not too long; then it is below the limit. */
  lemma AcceptedExactly(authenticated: bool, fileName: string, data: seq<Byte>)
    ensures var v := Upload(authenticated, fileName, data);
            && (v.Accepted? <==> authenticated && fileName != "" && Run(data) >= 2 && |data| <= 13_981_013)
            && (v.Accepted? ==> 0 < |v.file| < MAX_FILE_SIZE)
  {
    DecodeIsTheNumber(data);
  }

  /** What is refused, with which code, by the first check that fails. */
  lemma RefusedExactly(authenticated: bool, fileName: string, data: seq<Byte>)
    ensures var v := Upload(authenticated, fileName, data);
            && (!authenticated ==> v == Refused(401, NotAuthenticated))
            && (authenticated && (|fileName| == 0 || |data| == 0) ==> v == Refused(400, FieldMissing))
            && (authenticated && |fileName| > 0 && |data| > 13_981_013 ==> v == Refused(400, TooLarge))
            && (authenticated && |fileName| > 0 && 0 < |data| <= 13_981_013 ==>
                  v == if Run(data) < 2 then Refused(400, NotBase64) else Accepted(Decode(data)))
  {
    DecodeIsTheNumber(data);
  }

  /** What becomes of data that is what some file decodes from. */
  lemma UploadOf(fileName: string, data: seq<Byte>, file: seq<Byte>)
    requires fileName != "" && data != [] && file != [] && Decode(data) == file
    ensures Upload(true, fileName, data) == if |data| > 13_981_013 then Refused(400, TooLarge) else Accepted(file)
  {
  }

  /** A file sent in the standard's encoding is accepted, unaltered, if and only if it is smaller than the limit. */
  lemma FileUploads(fileName: string, file: seq<Byte>)
    requires fileName != "" && file != []
    ensures Upload(true, fileName, Encode(file))
         == if |file| < MAX_FILE_SIZE then Accepted(file) else Refused(400, TooLarge)
  {
    DecodeEncode(file);
    LongestEncoding(file);
    UploadOf(fileName, Encode(file), file);
  }

  lemma LongestEncoding(file: seq<Byte>)
    requires file != []
    ensures Encode(file) != []
    ensures |Encode(file)| <= 13_981_013 <==> |file| < MAX_FILE_SIZE
  {
    EncodedLength(file);
    RoundedUp(|file|);
  }

  lemma RoundedUp(n: nat)
    ensures (n + 2) / 3 * 4 <= 13_981_013 <==> n < MAX_FILE_SIZE
  {
  }
}
