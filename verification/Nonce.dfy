/** Partial IVs made from sender sequence numbers, and the AEAD nonce (section 5.2 of RFC 8613). */
module Nonce {
  import opened Common
  import opened CoapOption
  import opened OscoreOption

  const NONCE_LEN := 13

  type Iv = b: Bytes | |b| == NONCE_LEN witness Zeros(NONCE_LEN)

  // ----- the sequence number in memory -----

  /** The byte order of the machine that runs the library. */
  datatype ByteOrder = LittleEndian | BigEndian

  function LowBytes(n: nat, k: nat): (r: Bytes)
    ensures |r| == k
  {
    if k == 0 then [] else [n % 0x100] + LowBytes(n / 0x100, k - 1)
  }

  function Reverse(s: Bytes): (r: Bytes)
    ensures |r| == |s|
  {
    if s == [] then [] else Reverse(s[1..]) + [s[0]]
  }

  function Memory(ssn: uint64, order: ByteOrder): (r: Bytes)
    ensures |r| == 8
  {
    if order == LittleEndian then LowBytes(ssn, 8) else Reverse(LowBytes(ssn, 8))
  }

  /** One past the last byte that is not zero. */
  function Significant(p: Bytes): (l: nat)
    ensures l <= |p|
  {
    if p == [] then 0
    else
      var l := Significant(p[1..]);
      if l > 0 then l + 1 else if p[0] != 0 then 1 else 0
  }

  function SsnToPiv(ssn: uint64, order: ByteOrder): (r: Result<Piv>)
    ensures r.Ok? ==> r.value != []
    ensures r.Fail? ==> r.err == BufferToSmall
  {
    var p := Memory(ssn, order);
    var l := Significant(p);
    if l == 0 then Ok([0])
    else if l > MAX_PIV_LEN then Fail(BufferToSmall)
    else Ok(p[..l])
  }

  lemma {:induction false} SignificantIs(p: Bytes, l: nat)
    requires l <= |p| && (l == 0 || p[l - 1] != 0)
    requires forall i :: l <= i < |p| ==> p[i] == 0
    ensures Significant(p) == l
  {
    if p != [] {
      SignificantIs(p[1..], if l == 0 then 0 else l - 1);
    }
  }

  /** `sender_seq_num2piv`: scans the memory of the number from its last byte down. */
  method SenderSeqNum2Piv(ssn: uint64, order: ByteOrder) returns (r: Result<Piv>)
    ensures r == SsnToPiv(ssn, order)
  {
    hide LowBytes, Reverse, Memory, Significant;
    var p := Memory(ssn, order);
    var i := 7;
    while i >= 0
      invariant -1 <= i < 8
      invariant forall j :: i < j < 8 ==> p[j] == 0
    {
      if p[i] > 0 {
        SignificantIs(p, i + 1);
        if MAX_PIV_LEN < i + 1 {
          return Fail(BufferToSmall);
        }
        return Ok(p[..i + 1]);
      }
      i := i - 1;
    }
    SignificantIs(p, 0);
    return Ok([0]);
  }

  // ----- the little-endian encoding is the shortest one -----

  function Shortest(n: nat): (r: Bytes)
    ensures r != []
  {
    if n < 0x100 then [n] else [n % 0x100] + Shortest(n / 0x100)
  }

  function Value(p: Bytes): nat {
    if p == [] then 0 else p[0] + 0x100 * Value(p[1..])
  }

  lemma {:induction false} ValueOfShortest(n: nat)
    ensures Value(Shortest(n)) == n
    ensures |Shortest(n)| > 1 ==> Shortest(n)[|Shortest(n)| - 1] != 0
  {
    if n >= 0x100 {
      ValueOfShortest(n / 0x100);
    } else {
      assert [n][1..] == [];
    }
  }

  lemma {:induction false} ShortestLen(n: nat, k: nat)
    ensures |Shortest(n)| <= k + 1 <==> n < Pow256(k + 1)
  {
    if k > 0 {
      if n >= 0x100 {
        ShortestLen(n / 0x100, k - 1);
      }
    }
  }

  lemma {:induction false} LowBytesOfZero(k: nat)
    ensures Significant(LowBytes(0, k)) == 0
  {
    if k > 0 {
      LowBytesOfZero(k - 1);
    }
  }

  lemma {:induction false} SignificantLowBytes(n: nat, k: nat)
    requires 0 < n < Pow256(k)
    ensures Significant(LowBytes(n, k)) == |Shortest(n)|
    ensures LowBytes(n, k)[..|Shortest(n)|] == Shortest(n)
  {
    assert k > 0;
    var low, rest := LowBytes(n, k), LowBytes(n / 0x100, k - 1);
    assert low[1..] == rest;
    if n < 0x100 {
      LowBytesOfZero(k - 1);
    } else {
      SignificantLowBytes(n / 0x100, k - 1);
      var l := |Shortest(n / 0x100)|;
      assert low[..l + 1] == [n % 0x100] + rest[..l];
    }
  }

  lemma {:induction false} Pow256Values()
    ensures Pow256(5) == 0x100_0000_0000
    ensures Pow256(8) == 0x1_0000_0000_0000_0000
  {
    assert Pow256(2) == 0x1_0000;
    assert Pow256(4) == 0x1_0000_0000;
  }

  /**
   * On a little-endian machine the PIV is the shortest little-endian encoding of the number,
   * and creating it fails exactly from 2^40 on.
   */
  lemma {:induction false} PivIsShortest(ssn: uint64)
    ensures SsnToPiv(ssn, LittleEndian).Ok? <==> ssn < 0x100_0000_0000
    ensures ssn < 0x100_0000_0000 ==> SsnToPiv(ssn, LittleEndian) == Ok(Shortest(ssn))
    ensures Value(Shortest(ssn)) == ssn
    ensures |Shortest(ssn)| > 1 ==> Shortest(ssn)[|Shortest(ssn)| - 1] != 0
  {
    Pow256Values();
    ValueOfShortest(ssn);
    if ssn == 0 {
      LowBytesOfZero(8);
    } else {
      SignificantLowBytes(ssn, 8);
      ShortestLen(ssn, 4);
    }
  }

  lemma {:induction false} SignificantBound(p: Bytes, k: nat)
    ensures Significant(p) <= k <==> forall i :: k <= i < |p| ==> p[i] == 0
  {
    if p != [] {
      SignificantBound(p[1..], if k == 0 then 0 else k - 1);
      assert forall i :: 0 < i < |p| ==> p[i] == p[1..][i - 1];
    }
  }

  /** Number zero has a PIV of one byte on every machine. */
  lemma {:induction false} PivOfZero(order: ByteOrder)
    ensures SsnToPiv(0, order) == Ok([0])
  {
    if order == LittleEndian {
      LowBytesOfZero(8);
    } else {
      assert LowBytes(0, 2) == [0, 0];
      assert LowBytes(0, 4) == [0, 0] + LowBytes(0, 2);
      assert LowBytes(0, 6) == [0, 0] + LowBytes(0, 4);
      assert LowBytes(0, 8) == [0, 0] + LowBytes(0, 6);
      ReverseOfZeros(LowBytes(0, 8));
      SignificantIs(Memory(0, BigEndian), 0);
    }
  }

  lemma {:induction false} ReverseOfZeros(s: Bytes)
    requires forall i :: 0 <= i < |s| ==> s[i] == 0
    ensures forall i :: 0 <= i < |s| ==> Reverse(s)[i] == 0
  {
    if s != [] {
      ReverseOfZeros(s[1..]);
    }
  }

  /** The three low-order bytes stand last in big-endian memory. */
  lemma {:induction false} BigEndianTail(n: uint64)
    ensures var p := Memory(n, BigEndian);
      p[7] == n % 0x100 && p[6] == n / 0x100 % 0x100 && p[5] == n / 0x1_0000 % 0x100
  {
    var n1: nat, n2: nat, n3: nat := n / 0x100, n / 0x1_0000, n / 0x100_0000;
    var low5 := LowBytes(n3, 5);
    assert LowBytes(n2, 6) == [n2 % 0x100] + low5;
    assert LowBytes(n1, 7) == [n1 % 0x100] + LowBytes(n2, 6);
    assert LowBytes(n, 8) == [n % 0x100] + LowBytes(n1, 7);
    assert Reverse(LowBytes(n, 8)) == Reverse(LowBytes(n1, 7)) + [n % 0x100];
    assert Reverse(LowBytes(n1, 7)) == Reverse(LowBytes(n2, 6)) + [n1 % 0x100];
    assert Reverse(LowBytes(n2, 6)) == Reverse(low5) + [n2 % 0x100];
  }

  /**
   * On a big-endian machine the scan meets the low-order bytes first: a PIV can be created
   * exactly for the multiples of 2^24, so not for sequence number 1.
   */
  lemma {:induction false} BigEndianPivIff(ssn: uint64)
    ensures SsnToPiv(ssn, BigEndian).Ok? <==> ssn % 0x100_0000 == 0
  {
    hide Memory, Significant;
    var p := Memory(ssn, BigEndian);
    BigEndianTail(ssn);
    SignificantBound(p, MAX_PIV_LEN);
    ThreeLowBytes(ssn);
  }

  lemma {:induction false} ThreeLowBytes(n: nat)
    ensures n % 0x100_0000 == 0 <==> n % 0x100 == 0 && n / 0x100 % 0x100 == 0 && n / 0x1_0000 % 0x100 == 0
  {
    var n1: nat, n2: nat := n / 0x100, n / 0x1_0000;
    assert n2 == n1 / 0x100;
    assert n / 0x100_0000 == n2 / 0x100;
  }

  // ----- the nonce -----

  function LeftPad(s: Bytes, n: nat): (r: Bytes)
    requires |s| <= n
    ensures |r| == n
  {
    Zeros(n - |s|) + s
  }

  function NonceInput(id: Kid, piv: Piv): (r: Bytes)
    ensures |r| == NONCE_LEN
  {
    [|id|] + LeftPad(id, MAX_KID_LEN) + LeftPad(piv, MAX_PIV_LEN)
  }

  function MakeNonce(id: Kid, piv: Piv, iv: Iv): (r: Iv) {
    XorBytes(NonceInput(id, piv), iv)
  }

  /** Where the parts stand: the size of the ID, the ID to byte 7 and the PIV to byte 12, zeros in front of both. */
  lemma {:induction false} NonceBytes(id: Kid, piv: Piv, iv: Iv)
    ensures var nonce := MakeNonce(id, piv, iv);
      && |nonce| == 13 && nonce[0] == Xor(|id|, iv[0])
      && (forall i :: 0 <= i < |id| ==> nonce[8 - |id| + i] == Xor(id[i], iv[8 - |id| + i]))
      && (forall i :: 0 <= i < |piv| ==> nonce[13 - |piv| + i] == Xor(piv[i], iv[13 - |piv| + i]))
      && (forall i :: 1 <= i < 8 - |id| || 8 <= i < 13 - |piv| ==> nonce[i] == iv[i])
  {
    hide Xor;
    var input := NonceInput(id, piv);
    forall i | 1 <= i < 8 - |id| || 8 <= i < 13 - |piv|
      ensures MakeNonce(id, piv, iv)[i] == iv[i]
    {
      assert input[i] == 0;
      XorZero(iv[i]);
    }
  }

  /** A cleared buffer with `s` at its end. */
  method PadInto(s: Bytes, n: nat) returns (padded: array<byte>)
    requires |s| <= n
    ensures fresh(padded) && padded[..] == LeftPad(s, n)
  {
    padded := new byte[n](i => 0);
    CopyInto(padded, n - |s|, s);
    assert padded[..] == padded[..n - |s|] + padded[n - |s|..n - |s| + |s|];
  }

  /** `create_nonce`, in place in the nonce buffer. */
  method CreateNonce(id: Kid, piv: Piv, iv: Iv, nonce: array<byte>)
    requires nonce.Length == NONCE_LEN
    modifies nonce
    ensures nonce[..] == MakeNonce(id, piv, iv)
  {
    hide Xor, LeftPad;
    var paddedPiv := PadInto(piv, MAX_PIV_LEN);
    var paddedId := PadInto(id, MAX_KID_LEN);
    FillNonce(id, paddedId[..], paddedPiv[..], nonce);
    ghost var input := nonce[..];
    assert input == NonceInput(id, piv);
    for i := 0 to NONCE_LEN
      invariant forall k :: 0 <= k < i ==> nonce[k] == Xor(input[k], iv[k])
      invariant forall k :: i <= k < NONCE_LEN ==> nonce[k] == input[k]
    {
      nonce[i] := Xor(nonce[i], iv[i]);
    }
  }

  method FillNonce(id: Kid, paddedId: Bytes, paddedPiv: Bytes, nonce: array<byte>)
    requires nonce.Length == NONCE_LEN && |paddedId| == MAX_KID_LEN && |paddedPiv| == MAX_PIV_LEN
    modifies nonce
    ensures nonce[..] == [|id|] + paddedId + paddedPiv
  {
    nonce[0] := |id|;
    CopyInto(nonce, 1, paddedId);
    assert nonce[..1 + MAX_KID_LEN] == nonce[..1] + nonce[1..1 + MAX_KID_LEN];
    CopyInto(nonce, 1 + MAX_KID_LEN, paddedPiv);
    assert nonce[..] == nonce[..1 + MAX_KID_LEN] + nonce[1 + MAX_KID_LEN..][..MAX_PIV_LEN];
  }

  lemma {:induction false} LeftPadSame(a: Bytes, b: Bytes, n: nat)
    requires |a| <= n && |b| <= n
    ensures |a| == |b| && LeftPad(a, n) == LeftPad(b, n) ==> a == b
  {
    assert LeftPad(a, n)[n - |a|..] == a && LeftPad(b, n)[n - |b|..] == b;
  }

  /** With one Common IV, nonces are equal exactly for equal IDs and equal padded PIVs. */
  lemma {:induction false} NonceEqualIff(id1: Kid, piv1: Piv, id2: Kid, piv2: Piv, iv: Iv)
    ensures MakeNonce(id1, piv1, iv) == MakeNonce(id2, piv2, iv) <==>
            id1 == id2 && LeftPad(piv1, MAX_PIV_LEN) == LeftPad(piv2, MAX_PIV_LEN)
  {
    if MakeNonce(id1, piv1, iv) == MakeNonce(id2, piv2, iv) {
      XorBytesInjective(NonceInput(id1, piv1), NonceInput(id2, piv2), iv);
      NonceInputInjective(id1, piv1, id2, piv2);
    }
  }

  lemma {:induction false} NonceInputInjective(id1: Kid, piv1: Piv, id2: Kid, piv2: Piv)
    requires NonceInput(id1, piv1) == NonceInput(id2, piv2)
    ensures id1 == id2 && LeftPad(piv1, MAX_PIV_LEN) == LeftPad(piv2, MAX_PIV_LEN)
  {
    hide LeftPad;
    var m := 1 + MAX_KID_LEN;
    assert NonceInput(id1, piv1)[0] == |id1| && NonceInput(id2, piv2)[0] == |id2|;
    assert NonceInput(id1, piv1)[1..m] == LeftPad(id1, MAX_KID_LEN);
    assert NonceInput(id2, piv2)[1..m] == LeftPad(id2, MAX_KID_LEN);
    assert NonceInput(id1, piv1)[m..] == LeftPad(piv1, MAX_PIV_LEN);
    assert NonceInput(id2, piv2)[m..] == LeftPad(piv2, MAX_PIV_LEN);
    LeftPadSame(id1, id2, MAX_KID_LEN);
  }

  // ----- sequence numbers and nonces -----

  /** n followed by k zero bytes in little-endian memory: n times 256 to the k. */
  function Scale(n: nat, k: nat): nat {
    if k == 0 then n else 0x100 * Scale(n, k - 1)
  }

  lemma {:induction false} ValueOfZeroPrefix(k: nat, p: Bytes)
    ensures Value(Zeros(k) + p) == Scale(Value(p), k)
  {
    if k == 0 {
      assert Zeros(0) + p == p;
    } else {
      assert (Zeros(k) + p)[1..] == Zeros(k - 1) + p;
      ValueOfZeroPrefix(k - 1, p);
    }
  }

  lemma {:induction false} ShortestOfScaled(n: nat, k: nat)
    requires n > 0
    ensures Scale(n, k) > 0 && Shortest(Scale(n, k)) == Zeros(k) + Shortest(n)
  {
    if k == 0 {
      assert Zeros(0) + Shortest(n) == Shortest(n);
    } else {
      ShortestOfScaled(n, k - 1);
      assert Zeros(k) == [0] + Zeros(k - 1);
    }
  }

  lemma {:induction false} ScaleOfZero(k: nat)
    ensures Scale(0, k) == 0
  {
    if k > 0 {
      ScaleOfZero(k - 1);
    }
  }

  lemma {:induction false} PadShifted(p: Bytes, k: nat, n: nat)
    requires k + |p| <= n
    ensures LeftPad(Zeros(k) + p, n) == LeftPad(p, n)
  {
  }

  lemma {:induction false} PadEqualShifts(a: Bytes, b: Bytes, n: nat)
    requires |b| <= |a| <= n && LeftPad(a, n) == LeftPad(b, n)
    ensures a == Zeros(|a| - |b|) + b
  {
    assert LeftPad(a, n)[n - |a|..] == a;
    assert LeftPad(b, n)[n - |a|..] == Zeros(|a| - |b|) + b;
  }

  lemma {:induction false} PaddedScaled(s: uint64, t: uint64, k: nat)
    requires s < 0x100_0000_0000 && s == Scale(t, k)
    ensures t < 0x100_0000_0000 && |Shortest(s)| <= MAX_PIV_LEN && |Shortest(t)| <= MAX_PIV_LEN
    ensures LeftPad(Shortest(s), MAX_PIV_LEN) == LeftPad(Shortest(t), MAX_PIV_LEN)
  {
    PivIsShortest(s);
    PivIsShortest(t);
    if t == 0 {
      ScaleOfZero(k);
    } else {
      ShortestOfScaled(t, k);
      PadShifted(Shortest(t), k, MAX_PIV_LEN);
      Pow256Values();
      ShortestLen(t, 4);
      ShortestLen(s, 4);
    }
  }

  lemma {:induction false} PaddedEqualScales(s: uint64, t: uint64)
    requires s < 0x100_0000_0000 && t < 0x100_0000_0000 && |Shortest(t)| <= |Shortest(s)| <= MAX_PIV_LEN
    requires LeftPad(Shortest(s), MAX_PIV_LEN) == LeftPad(Shortest(t), MAX_PIV_LEN)
    ensures s == Scale(t, |Shortest(s)| - |Shortest(t)|)
  {
    PadEqualShifts(Shortest(s), Shortest(t), MAX_PIV_LEN);
    ValueOfShortest(s);
    ValueOfShortest(t);
    ValueOfZeroPrefix(|Shortest(s)| - |Shortest(t)|, Shortest(t));
  }

  /**
   * Which sequence numbers share a nonce on a little-endian machine: the left padding of
   * `create_nonce` meets little-endian PIVs, so exactly the numbers that differ by whole
   * low-order zero bytes.
   */
  lemma {:induction false} NonceRepeatsIff(s: uint64, t: uint64, id: Kid, iv: Iv)
    requires s < 0x100_0000_0000 && t < 0x100_0000_0000
    ensures SsnToPiv(s, LittleEndian).Ok? && SsnToPiv(t, LittleEndian).Ok?
    ensures MakeNonce(id, SsnToPiv(s, LittleEndian).value, iv) == MakeNonce(id, SsnToPiv(t, LittleEndian).value, iv)
            <==> exists k :: s == Scale(t, k) || t == Scale(s, k)
  {
    hide MakeNonce, LeftPad, Scale, SsnToPiv;
    PivIsShortest(s);
    PivIsShortest(t);
    NonceEqualIff(id, Shortest(s), id, Shortest(t), iv);
    if LeftPad(Shortest(s), MAX_PIV_LEN) == LeftPad(Shortest(t), MAX_PIV_LEN) {
      if |Shortest(t)| <= |Shortest(s)| {
        PaddedEqualScales(s, t);
      } else {
        PaddedEqualScales(t, s);
      }
    }
    if k :| s == Scale(t, k) || t == Scale(s, k) {
      if s == Scale(t, k) {
        PaddedScaled(s, t, k);
      } else {
        PaddedScaled(t, s, k);
      }
    }
  }

  lemma {:induction false} ReverseReverse(s: Bytes)
    ensures Reverse(Reverse(s)) == s
  {
    if s != [] {
      ReverseSnoc(Reverse(s[1..]), s[0]);
      ReverseReverse(s[1..]);
    }
  }

  lemma {:induction false} ReverseSnoc(s: Bytes, b: byte)
    ensures Reverse(s + [b]) == [b] + Reverse(s)
  {
    if s == [] {
      assert [] + [b] == [b];
    } else {
      assert (s + [b])[1..] == s[1..] + [b];
      ReverseSnoc(s[1..], b);
    }
  }

  /** The PIV in network byte order, as the comments of `create_nonce` and RFC 8613 expect it. */
  function NetworkPiv(ssn: uint64): (r: Piv)
    requires ssn < 0x100_0000_0000
  {
    PivIsShortest(ssn);
    Reverse(Shortest(ssn))
  }

  /** With PIVs in network byte order a nonce determines its sequence number. */
  lemma {:induction false} NetworkNonceInjective(s: uint64, t: uint64, id: Kid, iv: Iv)
    requires s < 0x100_0000_0000 && t < 0x100_0000_0000
    ensures MakeNonce(id, NetworkPiv(s), iv) == MakeNonce(id, NetworkPiv(t), iv) <==> s == t
  {
    hide MakeNonce, LeftPad;
    NonceEqualIff(id, NetworkPiv(s), id, NetworkPiv(t), iv);
    if LeftPad(NetworkPiv(s), MAX_PIV_LEN) == LeftPad(NetworkPiv(t), MAX_PIV_LEN) {
      NetworkPadInjective(s, t);
    }
  }

  lemma {:induction false} NetworkPadInjective(s: uint64, t: uint64)
    requires s < 0x100_0000_0000 && t < 0x100_0000_0000
    requires LeftPad(NetworkPiv(s), MAX_PIV_LEN) == LeftPad(NetworkPiv(t), MAX_PIV_LEN)
    ensures s == t
    decreases |Shortest(s)| < |Shortest(t)|
  {
    if |Shortest(s)| < |Shortest(t)| {
      NetworkPadInjective(t, s);
    } else {
      var a, b := Shortest(s), Shortest(t);
      var k: nat := |a| - |b|;
      PadEqualShifts(Reverse(a), Reverse(b), MAX_PIV_LEN);
      ReverseReverse(a);
      ReverseReverse(b);
      ValueOfShortest(s);
      ValueOfShortest(t);
      if k > 0 {
        LastOfReverse(a);
        ZerosComeFirst(k, Reverse(b));
        assert false;
      } else {
        assert Zeros(0) + Reverse(b) == Reverse(b);
      }
    }
  }

  lemma {:induction false} ZerosComeFirst(k: nat, s: Bytes)
    requires k > 0
    ensures (Zeros(k) + s)[0] == 0
  {
  }

  lemma {:induction false} LastOfReverse(s: Bytes)
    requires s != []
    ensures Reverse(s)[0] == s[|s| - 1]
  {
    if |s| > 1 {
      LastOfReverse(s[1..]);
    }
  }
}
