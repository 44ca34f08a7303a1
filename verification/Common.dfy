/** Bytes, fixed-width integers, result values and the error codes shared by OSCORE and EDHOC. */
module Common {

  type byte = b: int | 0 <= b < 0x100
  type uint16 = n: int | 0 <= n < 0x1_0000
  type uint32 = n: int | 0 <= n < 0x1_0000_0000
  type uint64 = n: int | 0 <= n < 0x1_0000_0000_0000_0000

  type Bytes = seq<byte>

  /** The conversions `(uint8_t)`, `(uint16_t)` and `(uint32_t)` of an `int`. */
  function U8(n: int): byte { n % 0x100 }
  function U16(n: int): uint16 { n % 0x1_0000 }
  function U32(n: int): uint32 { n % 0x1_0000_0000 }
  function U64(n: int): uint64 { n % 0x1_0000_0000_0000_0000 }

  lemma {:induction false} U16OfZero()
    ensures U16(0) == 0
  {
  }

  lemma {:induction false} U16Next(n: nat)
    ensures U16(U16(n) + 1) == U16(n + 1)
  {
  }

  /**
   * The error codes of the library that the model can return.  `Undefined` is not one of
   * them: it stands for an access outside of an object or a use of an uninitialised one,
   * where the C program has no defined behaviour.
   */
  datatype Err =
    | BufferToSmall
    | HkdfFailed
    | UnexpectedResult
    | ErrorMessageSent
    | UnsupportedCipherSuite
    | SignatureAuthenticationFailed
    | MacAuthenticationFailed
    | CertificateAuthenticationFailed
    | CredentialNotFound
    | CborEncodingError
    | SuitesIListTooLong
    | InvalidAlgorithmAead
    | InvalidAlgorithmHkdf
    | KidRecipientIdMismatch
    | ValueLenTooLong
    | InvalidTkl
    | InvalidOptionDelta
    | InvalidOptionLen
    | InvalidPiv
    | NotValidInputPacket
    | ReplayedPacket
    | Undefined

  datatype Result<+T> = Ok(value: T) | Fail(err: Err) {
    predicate IsFailure() {
      Fail?
    }

    function PropagateFailure<U>(): Result<U>
      requires Fail?
    {
      Fail(err)
    }

    function Extract(): T
      requires Ok?
    {
      value
    }
  }

  /** `check_buffer_size` and the check inside `_memcpy_s`. */
  function CheckSize(available: int, required: int): Result<()> {
    if available < required then Fail(BufferToSmall) else Ok(())
  }

  function Zeros(n: nat): (r: Bytes)
    ensures |r| == n && forall i :: 0 <= i < n ==> r[i] == 0
  {
    seq(n, _ => 0)
  }

  function Pow2(n: nat): (r: nat)
    ensures r > 0
  {
    if n == 0 then 1 else 2 * Pow2(n - 1)
  }

  function Pow256(k: nat): (r: nat)
    ensures r > 0
  {
    if k == 0 then 1 else 0x100 * Pow256(k - 1)
  }

  /** The bytes of a string literal. */
  function Ascii(s: string): (r: Bytes)
    ensures |r| == |s|
  {
    seq(|s|, i requires 0 <= i < |s| => U8(s[i] as int))
  }

  /** Bitwise exclusive or of two n-bit numbers, lowest bit first. */
  function XorBits(n: nat, a: nat, b: nat): (r: nat)
    requires a < Pow2(n) && b < Pow2(n)
    ensures r < Pow2(n)
  {
    if n == 0 then 0
    else (if a % 2 == b % 2 then 0 else 1) + 2 * XorBits(n - 1, a / 2, b / 2)
  }

  lemma {:induction false} XorBitsInvolutive(n: nat, a: nat, b: nat)
    requires a < Pow2(n) && b < Pow2(n)
    ensures XorBits(n, XorBits(n, a, b), b) == a
  {
    if n > 0 {
      var x := XorBits(n, a, b);
      assert x / 2 == XorBits(n - 1, a / 2, b / 2);
      XorBitsInvolutive(n - 1, a / 2, b / 2);
    }
  }

  lemma {:induction false} Pow2Of8()
    ensures Pow2(8) == 0x100
  {
    assert Pow2(4) == 16;
  }

  function Xor(a: byte, b: byte): byte {
    Pow2Of8();
    XorBits(8, a, b)
  }

  lemma {:induction false} XorInvolutive(a: byte, b: byte)
    ensures Xor(Xor(a, b), b) == a
  {
    Pow2Of8();
    XorBitsInvolutive(8, a, b);
  }

  /** The i-th binary digit, from the lowest one. */
  function Bit(x: nat, i: nat): nat {
    if i == 0 then x % 2 else Bit(x / 2, i - 1)
  }

  lemma {:induction false} XorBitsBit(n: nat, a: nat, b: nat, i: nat)
    requires a < Pow2(n) && b < Pow2(n) && i < n
    ensures Bit(XorBits(n, a, b), i) == (Bit(a, i) + Bit(b, i)) % 2
  {
    hide XorBits;
    XorBitsHalf(n, a, b);
    if i > 0 {
      XorBitsBit(n - 1, a / 2, b / 2, i - 1);
    }
  }

  lemma {:induction false} XorBitsHalf(n: nat, a: nat, b: nat)
    requires a < Pow2(n) && b < Pow2(n) && n > 0
    ensures a / 2 < Pow2(n - 1) && b / 2 < Pow2(n - 1)
    ensures XorBits(n, a, b) / 2 == XorBits(n - 1, a / 2, b / 2) && XorBits(n, a, b) % 2 == (a + b) % 2
  {
  }

  /** Each bit of an exclusive or is the sum of the two bits. */
  lemma {:induction false} XorBit(a: byte, b: byte, i: nat)
    requires i < 8
    ensures Bit(Xor(a, b), i) == (Bit(a, i) + Bit(b, i)) % 2
  {
    Pow2Of8();
    XorBitsBit(8, a, b, i);
  }

  lemma {:induction false} XorBitsZero(n: nat, b: nat)
    requires b < Pow2(n)
    ensures XorBits(n, 0, b) == b
  {
    if n > 0 {
      XorBitsZero(n - 1, b / 2);
    }
  }

  lemma {:induction false} XorZero(b: byte)
    ensures Xor(0, b) == b
  {
    Pow2Of8();
    XorBitsZero(8, b);
  }

  /** Bytewise exclusive or of two strings of the same length. */
  function XorBytes(a: Bytes, b: Bytes): (r: Bytes)
    requires |a| == |b|
    ensures |r| == |a|
  {
    seq(|a|, i requires 0 <= i < |a| => Xor(a[i], b[i]))
  }

  /** Xoring with the same mask twice restores the string, so equal results come from equal strings. */
  lemma {:induction false} XorBytesInvolutive(a: Bytes, b: Bytes)
    requires |a| == |b|
    ensures XorBytes(XorBytes(a, b), b) == a
  {
    forall i | 0 <= i < |a|
      ensures XorBytes(XorBytes(a, b), b)[i] == a[i]
    {
      XorInvolutive(a[i], b[i]);
    }
  }

  lemma {:induction false} XorBytesInjective(a: Bytes, b: Bytes, mask: Bytes)
    requires |a| == |b| == |mask|
    requires XorBytes(a, mask) == XorBytes(b, mask)
    ensures a == b
  {
    XorBytesInvolutive(a, mask);
    XorBytesInvolutive(b, mask);
  }

  /** The position of the first 0xFF byte at or after `from`, or the length of the buffer. */
  function FindMarker(buf: Bytes, from: nat): (q: nat)
    requires from <= |buf|
    ensures from <= q <= |buf|
    ensures forall i :: from <= i < q ==> buf[i] != 0xFF
    ensures q < |buf| ==> buf[q] == 0xFF
    decreases |buf| - from
  {
    if from == |buf| || buf[from] == 0xFF then from else FindMarker(buf, from + 1)
  }

  /** `part` stands in `buf` at position `pos`. */
  predicate At(buf: Bytes, pos: nat, part: Bytes) {
    pos + |part| <= |buf| && buf[pos..pos + |part|] == part
  }

  lemma {:induction false} AtSplit(buf: Bytes, pos: nat, a: Bytes, b: Bytes)
    ensures At(buf, pos, a + b) <==> At(buf, pos, a) && At(buf, pos + |a|, b)
  {
    if pos + |a + b| <= |buf| {
      var m := pos + |a|;
      assert buf[pos..m + |b|] == buf[pos..m] + buf[m..m + |b|];
      assert |buf[pos..m]| == |a|;
      if At(buf, pos, a + b) {
        assert (a + b)[..|a|] == a && (a + b)[|a|..] == b;
        assert buf[pos..m] == buf[pos..m + |b|][..|a|];
        assert buf[m..m + |b|] == buf[pos..m + |b|][|a|..];
      }
    }
  }

  lemma {:induction false} AtSplit3(buf: Bytes, pos: nat, a: Bytes, b: Bytes, c: Bytes)
    requires At(buf, pos, a + b + c)
    ensures At(buf, pos, a) && At(buf, pos + |a|, b) && At(buf, pos + |a| + |b|, c)
  {
    AtSplit(buf, pos, a + b, c);
    AtSplit(buf, pos, a, b);
  }

  lemma {:induction false} AtParts(a: Bytes, b: Bytes, c: Bytes, d: Bytes, e: Bytes)
    ensures var buf := a + b + c + d + e;
      && At(buf, 0, a) && At(buf, |a|, b) && At(buf, |a| + |b|, c) && At(buf, |a| + |b| + |c|, d)
      && At(buf, |a| + |b| + |c| + |d|, e) && |buf| == |a| + |b| + |c| + |d| + |e|
  {
    hide At;
    var buf := a + b + c + d + e;
    AtWhole(buf);
    AtSplit(buf, 0, a + b + c + d, e);
    AtSplit(buf, 0, a + b + c, d);
    AtSplit3(buf, 0, a, b, c);
  }

  lemma {:induction false} AtByte(buf: Bytes, pos: nat, b: byte)
    requires At(buf, pos, [b])
    ensures pos < |buf| && buf[pos] == b
  {
  }

  /** A part of a string is found by slicing where it stands. */
  lemma {:induction false} AtSlice(buf: Bytes, pos: nat, part: Bytes)
    requires At(buf, pos, part)
    ensures pos + |part| <= |buf| && buf[pos..pos + |part|] == part
  {
  }

  lemma {:induction false} AtWhole(buf: Bytes)
    ensures At(buf, 0, buf)
  {
    assert buf[0..|buf|] == buf;
  }

  lemma {:induction false} AtConcat(pre: Bytes, part: Bytes, post: Bytes)
    ensures At(pre + part + post, |pre|, part)
  {
  }
}
