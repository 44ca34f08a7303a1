/**
 * The part of CBOR (section 3 of RFC 8949) that the messages use: heads, integers, byte and
 * text strings, array and map heads.  Lengths and integers have at most 32 bits.
 */
module Cbor {
  import opened Common

  const LIMIT := 0x1_0000_0000

  datatype Major = Unsigned | Negative | ByteString | TextString | List | Map

  function Code(m: Major): nat {
    match m
    case Unsigned => 0
    case Negative => 1
    case ByteString => 2
    case TextString => 3
    case List => 4
    case Map => 5
  }

  function MajorOf(code: nat): Result<Major> {
    if code == 0 then Ok(Unsigned)
    else if code == 1 then Ok(Negative)
    else if code == 2 then Ok(ByteString)
    else if code == 3 then Ok(TextString)
    else if code == 4 then Ok(List)
    else if code == 5 then Ok(Map)
    else Fail(UnexpectedResult)
  }

  /** The argument of a head, in the given number of bytes, highest first. */
  function BigEndian(n: nat, k: nat): (r: Bytes)
    ensures |r| == k
  {
    if k == 0 then [] else BigEndian(n / 0x100, k - 1) + [n % 0x100]
  }

  function FromBigEndian(b: Bytes): nat {
    if b == [] then 0
    else
      var last: nat := b[|b| - 1];
      FromBigEndian(b[..|b| - 1]) * 0x100 + last
  }

  /** How many argument bytes follow the initial byte. */
  function ArgLen(n: nat): nat {
    if n < 24 then 0 else if n < 0x100 then 1 else if n < 0x1_0000 then 2 else 4
  }

  function Info(n: nat): nat {
    if n < 24 then n else if n < 0x100 then 24 else if n < 0x1_0000 then 25 else 26
  }

  function Head(m: Major, n: nat): (r: Bytes)
    ensures 1 <= |r| <= 5
    ensures |r| == 1 + ArgLen(n)
  {
    [Code(m) * 32 + Info(n)] + BigEndian(n, ArgLen(n))
  }

  function EncodeInt(i: int): Bytes {
    if i >= 0 then Head(Unsigned, i) else Head(Negative, -1 - i)
  }

  function EncodeBstr(b: Bytes): (r: Bytes)
    ensures |b| < |r| <= |b| + 5
    ensures |r| == 1 + ArgLen(|b|) + |b|
  {
    Head(ByteString, |b|) + b
  }

  function EncodeTstr(b: Bytes): (r: Bytes)
    ensures |r| == 1 + ArgLen(|b|) + |b|
  {
    Head(TextString, |b|) + b
  }

  predicate IsInt32(i: int) { -0x8000_0000 <= i < 0x8000_0000 }

  type int32 = i: int | IsInt32(i)

  // ----- decoding -----

  datatype Item<+T> = Item(value: T, next: nat)

  datatype HeadItem = HeadItem(major: Major, arg: nat, next: nat)

  function InfoLen(info: nat): Result<nat> {
    if info < 24 then Ok(0)
    else if info == 24 then Ok(1)
    else if info == 25 then Ok(2)
    else if info == 26 then Ok(4)
    else Fail(UnexpectedResult)
  }

  function ReadHead(buf: Bytes, pos: nat): (r: Result<HeadItem>)
    ensures r.Ok? ==> pos < r.value.next <= |buf|
  {
    if pos >= |buf| then Fail(UnexpectedResult) else
    var major :- MajorOf(buf[pos] / 32);
    var info: nat := buf[pos] % 32;
    var k :- InfoLen(info);
    var next := pos + 1 + k;
    if next > |buf| then Fail(UnexpectedResult)
    else Ok(HeadItem(major, if k == 0 then info else FromBigEndian(buf[pos + 1..next]), next))
  }

  /** A head of a given kind. */
  function Expect(buf: Bytes, pos: nat, m: Major): (r: Result<Item<nat>>)
    ensures r.Ok? ==> pos < r.value.next <= |buf|
  {
    var h :- ReadHead(buf, pos);
    if h.major == m then Ok(Item(h.arg, h.next)) else Fail(UnexpectedResult)
  }

  function ReadInt(buf: Bytes, pos: nat): (r: Result<Item<int>>)
    ensures r.Ok? ==> pos < r.value.next <= |buf|
  {
    var h :- ReadHead(buf, pos);
    var i := if h.major == Negative then -1 - h.arg else h.arg;
    if (h.major == Unsigned || h.major == Negative) && IsInt32(i) then Ok(Item(i, h.next))
    else Fail(UnexpectedResult)
  }

  function ReadBstr(buf: Bytes, pos: nat): (r: Result<Item<Bytes>>)
    ensures r.Ok? ==> pos < r.value.next <= |buf| && |r.value.value| < |buf|
  {
    var h :- Expect(buf, pos, ByteString);
    if h.next + h.value > |buf| then Fail(UnexpectedResult)
    else Ok(Item(buf[h.next..h.next + h.value], h.next + h.value))
  }

  function ReadTstr(buf: Bytes, pos: nat): (r: Result<Item<Bytes>>)
    ensures r.Ok? ==> pos < r.value.next <= |buf|
  {
    var h :- Expect(buf, pos, TextString);
    if h.next + h.value > |buf| then Fail(UnexpectedResult)
    else Ok(Item(buf[h.next..h.next + h.value], h.next + h.value))
  }

  // ----- the bytes -----

  /** The first byte of an item without its argument, section 3.1 of RFC 8949. */
  function InitialByte(m: Major): byte {
    match m
    case Unsigned => 0x00
    case Negative => 0x20
    case ByteString => 0x40
    case TextString => 0x60
    case List => 0x80
    case Map => 0xA0
  }

  /** Heads in bytes, for all four sizes of the argument. */
  lemma {:induction false} HeadBytes(m: Major, n: nat)
    requires n < LIMIT
    ensures var first: int := InitialByte(m);
      Head(m, n) ==
      if n <= 23 then [first + n]
      else if n <= 0xFF then [first + 24, n]
      else if n <= 0xFFFF then [first + 25, n / 0x100, n % 0x100]
      else [first + 26, n / 0x100_0000, n / 0x1_0000 % 0x100, n / 0x100 % 0x100, n % 0x100]
  {
    if n > 23 {
      BigEndianBytes(n);
    }
  }

  lemma {:induction false} BigEndianBytes(n: nat)
    ensures n <= 0xFF ==> BigEndian(n, 1) == [n]
    ensures n <= 0xFFFF ==> BigEndian(n, 2) == [n / 0x100, n % 0x100]
    ensures n < LIMIT ==>
              BigEndian(n, 4) == [n / 0x100_0000, n / 0x1_0000 % 0x100, n / 0x100 % 0x100, n % 0x100]
  {
    var a: nat, b: nat, d: nat := n / 0x100, n / 0x1_0000, n / 0x100_0000;
    assert a / 0x100 == b && b / 0x100 == d;
    assert BigEndian(d, 1) == [d % 0x100];
    assert BigEndian(b, 2) == BigEndian(d, 1) + [b % 0x100];
    assert BigEndian(a, 3) == BigEndian(b, 2) + [a % 0x100];
    assert BigEndian(n, 1) == [n % 0x100];
    assert BigEndian(a, 1) == [a % 0x100];
    assert BigEndian(n, 2) == BigEndian(a, 1) + [n % 0x100];
    assert BigEndian(n, 4) == BigEndian(a, 3) + [n % 0x100];
  }

  // ----- decoding what was encoded -----

  lemma {:induction false} BigEndianRoundTrip(n: nat, k: nat)
    requires n < Pow256(k)
    ensures FromBigEndian(BigEndian(n, k)) == n
  {
    if k > 0 {
      BigEndianRoundTrip(n / 0x100, k - 1);
      assert BigEndian(n, k)[..k - 1] == BigEndian(n / 0x100, k - 1);
    }
  }

  lemma {:induction false} ArgFits(n: nat)
    requires n < LIMIT
    ensures ArgLen(n) > 0 ==> n < Pow256(ArgLen(n))
    ensures InfoLen(Info(n)) == Ok(ArgLen(n)) && Info(n) < 32
  {
    assert Pow256(2) == 0x1_0000;
    assert Pow256(4) == LIMIT;
  }

  lemma {:induction false} ReadHeadAt(buf: Bytes, pos: nat, m: Major, n: nat)
    requires n < LIMIT && At(buf, pos, Head(m, n))
    ensures ReadHead(buf, pos) == Ok(HeadItem(m, n, pos + |Head(m, n)|))
  {
    hide At, FromBigEndian, BigEndian;
    var first, arg := Code(m) * 32 + Info(n), BigEndian(n, ArgLen(n));
    ArgFits(n);
    AtSplit(buf, pos, [first], arg);
    AtByte(buf, pos, first);
    AtSlice(buf, pos + 1, arg);
    if ArgLen(n) > 0 {
      BigEndianRoundTrip(n, ArgLen(n));
    }
  }

  lemma {:induction false} ExpectAt(buf: Bytes, pos: nat, m: Major, n: nat)
    requires n < LIMIT && At(buf, pos, Head(m, n))
    ensures Expect(buf, pos, m) == Ok(Item(n, pos + |Head(m, n)|))
  {
    hide ReadHead, Head, At;
    ReadHeadAt(buf, pos, m, n);
  }

  lemma {:induction false} ReadIntAt(buf: Bytes, pos: nat, i: int)
    requires IsInt32(i) && At(buf, pos, EncodeInt(i))
    ensures ReadInt(buf, pos) == Ok(Item(i, pos + |EncodeInt(i)|))
    ensures ReadBstr(buf, pos).Fail?
  {
    hide ReadHead, Head, At;
    if i >= 0 {
      ReadHeadAt(buf, pos, Unsigned, i);
    } else {
      ReadHeadAt(buf, pos, Negative, -1 - i);
    }
  }

  /** Integers are read exactly within 32 bits, sign included. */
  lemma {:induction false} ReadIntIff(i: int)
    requires -LIMIT <= i < LIMIT
    ensures ReadInt(EncodeInt(i), 0).Ok? <==> -0x8000_0000 <= i <= 0x7FFF_FFFF
  {
    hide ReadHead, Head, At;
    AtWhole(EncodeInt(i));
    if i >= 0 {
      ReadHeadAt(EncodeInt(i), 0, Unsigned, i);
    } else {
      ReadHeadAt(EncodeInt(i), 0, Negative, -1 - i);
    }
  }

  lemma {:induction false} ReadBstrAt(buf: Bytes, pos: nat, b: Bytes)
    requires |b| < LIMIT && At(buf, pos, EncodeBstr(b))
    ensures ReadBstr(buf, pos) == Ok(Item(b, pos + |EncodeBstr(b)|))
    ensures ReadInt(buf, pos).Fail?
  {
    hide ReadHead, Head, At;
    AtSplit(buf, pos, Head(ByteString, |b|), b);
    ReadHeadAt(buf, pos, ByteString, |b|);
    AtSlice(buf, pos + |Head(ByteString, |b|)|, b);
  }

  lemma {:induction false} ReadTstrAt(buf: Bytes, pos: nat, b: Bytes)
    requires |b| < LIMIT && At(buf, pos, EncodeTstr(b))
    ensures ReadTstr(buf, pos) == Ok(Item(b, pos + |EncodeTstr(b)|))
  {
    hide ReadHead, Head, At;
    AtSplit(buf, pos, Head(TextString, |b|), b);
    ReadHeadAt(buf, pos, TextString, |b|);
    AtSlice(buf, pos + |Head(TextString, |b|)|, b);
  }

  /** An optional byte string, present when it is not empty. */
  function OptionalBstr(b: Bytes): Bytes {
    if b == [] then [] else EncodeBstr(b)
  }

  lemma {:induction false} OptionalBstrReads(buf: Bytes, pos: nat, b: Bytes)
    requires At(buf, pos, OptionalBstr(b)) && pos + |OptionalBstr(b)| == |buf| && |buf| < LIMIT
    ensures if b == [] then ReadBstr(buf, pos).Fail? else ReadBstr(buf, pos) == Ok(Item(b, |buf|))
  {
    hide At, Head, EncodeBstr;
    if b != [] {
      assert |b| < |EncodeBstr(b)|;
      ReadBstrAt(buf, pos, b);
    }
  }

  /** Byte strings are uniquely decodable in front of anything. */
  lemma {:induction false} BstrPrefixUnique(a: Bytes, restA: Bytes, b: Bytes, restB: Bytes)
    requires |a| < LIMIT && |b| < LIMIT
    requires EncodeBstr(a) + restA == EncodeBstr(b) + restB
    ensures a == b && restA == restB
  {
    hide EncodeBstr;
    var buf := EncodeBstr(a) + restA;
    AtConcat([], EncodeBstr(a), restA);
    AtConcat([], EncodeBstr(b), restB);
    assert [] + EncodeBstr(a) == EncodeBstr(a) && [] + EncodeBstr(b) == EncodeBstr(b);
    ReadBstrAt(buf, 0, a);
    ReadBstrAt(buf, 0, b);
    assert buf[|EncodeBstr(a)|..] == restA && buf[|EncodeBstr(b)|..] == restB;
  }
}
