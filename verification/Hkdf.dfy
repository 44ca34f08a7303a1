/** HKDF-Extract and HKDF-Expand (RFC 5869), with the expansion loops of both back-ends. */
module Hkdf {
  import opened Common
  import opened CoapOption
  import opened Crypto

  const INFO_DEFAULT_SIZE := 1200
  const HASH_LEN := 32

  /** An empty salt is a string of zeros. */
  function Extract(c: Primitives, salt: Bytes, ikm: Bytes): Digest {
    c.hmac(if salt == [] then Zeros(HASH_LEN) else salt, ikm)
  }

  // ----- section 2.3 of RFC 5869 -----

  /** T(i), with T(0) the empty string. */
  function Block(c: Primitives, prk: Bytes, info: Bytes, i: nat): (r: Bytes)
    ensures |r| == if i == 0 then 0 else HASH_LEN
  {
    if i == 0 then [] else c.hmac(prk, Block(c, prk, info, i - 1) + info + [U8(i)])
  }

  /** T(1) | T(2) | ... | T(n) */
  function Blocks(c: Primitives, prk: Bytes, info: Bytes, n: nat): (r: Bytes)
    ensures |r| == n * HASH_LEN
  {
    if n == 0 then [] else Blocks(c, prk, info, n - 1) + Block(c, prk, info, n)
  }

  function BlockCount(len: nat): nat { (len + 31) / 32 }

  /** The first `len` bytes of T(1) | T(2) | ... */
  function Okm(c: Primitives, prk: Bytes, info: Bytes, len: nat): (r: Bytes)
    ensures |r| == len
  {
    Blocks(c, prk, info, BlockCount(len))[..len]
  }

  /** Up to one block is the HMAC over info and a byte 1. */
  lemma {:induction false} FirstBlock(c: Primitives, prk: Bytes, info: Bytes, len: nat)
    requires 0 < len <= HASH_LEN
    ensures Okm(c, prk, info, len) == c.hmac(prk, info + [1])[..len]
  {
    assert BlockCount(len) == 1;
    assert Blocks(c, prk, info, 0) == [];
    assert Blocks(c, prk, info, 1) == Block(c, prk, info, 1);
    assert [] + info == info;
  }

  /** Byte by byte: each block is the HMAC over the one before it, info and its number. */
  lemma {:induction false} OkmByte(c: Primitives, prk: Bytes, info: Bytes, len: nat, i: nat)
    requires i < len
    ensures Okm(c, prk, info, len)[i] == Block(c, prk, info, i / 32 + 1)[i % 32]
    ensures Block(c, prk, info, i / 32 + 1) == c.hmac(prk, Block(c, prk, info, i / 32) + info + [U8(i / 32 + 1)])
    ensures Block(c, prk, info, 0) == []
  {
    BlocksByte(c, prk, info, BlockCount(len), i);
  }

  lemma {:induction false} BlocksByte(c: Primitives, prk: Bytes, info: Bytes, n: nat, i: nat)
    requires i < n * HASH_LEN
    ensures Blocks(c, prk, info, n)[i] == Block(c, prk, info, i / 32 + 1)[i % 32]
  {
    if i < (n - 1) * HASH_LEN {
      BlocksByte(c, prk, info, n - 1, i);
    }
  }

  // ----- the MBEDTLS back-end -----

  /** Lengths for which the sum in the 32-bit block count overflows. */
  predicate Wraps(len: nat) {
    len + 31 >= 0x1_0000_0000
  }

  /** Then there are no rounds at all. */
  lemma {:induction false} WrapsToNoRounds(len: nat)
    requires len < 0x1_0000_0000
    ensures U32(len + 31) / 32 == if Wraps(len) then 0 else BlockCount(len)
  {
  }

  /** The outcome of `hkdf_expand`, whose block count is computed in 32 bits. */
  function Expand(c: Primitives, prk: Bytes, info: Bytes, len: nat): (r: Result<Bytes>)
    requires !Wraps(len)
    ensures r.Ok? ==> |r.value| == len
  {
    if U32(len + 31) / 32 > 255 then Fail(HkdfFailed)
    else if INFO_DEFAULT_SIZE < HASH_LEN + |info| + 1 then Fail(UnexpectedResult)
    else Ok(Okm(c, prk, info, len))
  }

  /** Up to 255 blocks, from an info of at most 1167 bytes. */
  lemma {:induction false} ExpandOutcome(c: Primitives, prk: Bytes, info: Bytes, len: nat)
    requires !Wraps(len)
    ensures Expand(c, prk, info, len) ==
            if len > 8160 then Fail(HkdfFailed) else if |info| > 1167 then Fail(UnexpectedResult)
            else Ok(Okm(c, prk, info, len))
  {
    hide Okm;
  }

  /** What the HMAC of round i is taken over: in the first round the space for T(0) is skipped. */
  predicate Round(combo: Bytes, info: Bytes, i: nat, offset: nat)
    requires |combo| == INFO_DEFAULT_SIZE && HASH_LEN + |info| + 1 <= INFO_DEFAULT_SIZE
  {
    && combo[HASH_LEN..HASH_LEN + |info|] == info
    && offset == if i == 1 then HASH_LEN else 0
  }

  lemma {:induction false} RoundInput(combo: Bytes, info: Bytes, i: nat, offset: nat, previous: Bytes)
    requires |combo| == INFO_DEFAULT_SIZE && HASH_LEN + |info| + 1 <= INFO_DEFAULT_SIZE
    requires i >= 1 && Round(combo, info, i, offset) && |previous| == if i == 1 then 0 else HASH_LEN
    requires i > 1 ==> combo[..HASH_LEN] == previous
    requires combo[HASH_LEN + |info|] == U8(i)
    ensures combo[offset..HASH_LEN + |info| + 1] == previous + info + [U8(i)]
  {
    var e := HASH_LEN + |info|;
    assert combo[HASH_LEN..e + 1] == combo[HASH_LEN..e] + [combo[e]];
    if i > 1 {
      assert combo[0..e + 1] == combo[..HASH_LEN] + combo[HASH_LEN..e + 1];
    }
  }

  /** Writes one block, cut to what is left of the output. */
  method StoreBlock(c: Primitives, prk: Bytes, info: Bytes, t: Bytes, out: array<byte>, i: nat)
    requires 1 <= i <= BlockCount(out.Length) && t == Block(c, prk, info, i)
    requires out[..(i - 1) * HASH_LEN] == Blocks(c, prk, info, i - 1)
    modifies out
    ensures i * HASH_LEN <= out.Length ==> out[..i * HASH_LEN] == Blocks(c, prk, info, i)
    ensures out.Length < i * HASH_LEN ==> out[..] == Blocks(c, prk, info, i)[..out.Length]
  {
    var dest := (i - 1) * HASH_LEN;
    var len := if out.Length < i * HASH_LEN then out.Length % HASH_LEN else HASH_LEN;
    assert dest + len == if out.Length < i * HASH_LEN then out.Length else i * HASH_LEN;
    CopyInto(out, dest, t[..len]);
    assert out[..dest + len] == out[..dest] + out[dest..dest + len];
    assert Blocks(c, prk, info, i)[..dest + len] == Blocks(c, prk, info, i - 1) + t[..len];
    assert out[..out.Length] == out[..];
  }

  /** `hkdf_expand` over mbedtls: the HMAC input is kept in one buffer that is refilled in place. */
  method HkdfExpandMbedtls(c: Primitives, prk: Bytes, info: Bytes, out: array<byte>) returns (r: Result<()>)
    requires out.Length < 0x1_0000_0000
    modifies out
    ensures !Wraps(out.Length) && Expand(c, prk, info, out.Length).Fail? ==>
              r == Fail(Expand(c, prk, info, out.Length).err)
    ensures !Wraps(out.Length) && Expand(c, prk, info, out.Length).Ok? ==>
              r.Ok? && out[..] == Expand(c, prk, info, out.Length).value
    ensures Wraps(out.Length) ==>
              && out[..] == old(out[..])
              && r == if INFO_DEFAULT_SIZE < HASH_LEN + |info| + 1 then Fail(UnexpectedResult) else Ok(())
  {
    hide Okm, Blocks, Block, Round;
    var iterations := U32(out.Length + 31) / 32;
    WrapsToNoRounds(out.Length);
    if iterations > 255 {
      return Fail(HkdfFailed);
    }
    var comboLen := HASH_LEN + |info| + 1;
    if INFO_DEFAULT_SIZE < comboLen {
      return Fail(UnexpectedResult);
    }
    var combo := new byte[INFO_DEFAULT_SIZE](i => 0);
    var tmpOut: Bytes := Zeros(HASH_LEN);
    CopyInto(combo, HASH_LEN, info);
    var offset: nat := HASH_LEN;
    StartRounds(c, prk, info, combo[..]);
    assert out[..0] == [];
    for i := 1 to iterations + 1
      invariant Round(combo[..], info, i, offset)
      invariant i > 1 ==> tmpOut == Block(c, prk, info, i - 1)
      invariant |tmpOut| == HASH_LEN
      invariant i <= iterations ==> out[..(i - 1) * HASH_LEN] == Blocks(c, prk, info, i - 1)
      invariant i > iterations && !Wraps(out.Length) ==> out[..] == Okm(c, prk, info, out.Length)
      invariant Wraps(out.Length) ==> out[..] == old(out[..])
    {
      RefillCombo(combo, tmpOut, info, i, offset);
      RoundInput(combo[..], info, i, offset, Block(c, prk, info, i - 1));
      tmpOut := c.hmac(prk, combo[offset..comboLen]);
      NextBlock(c, prk, info, i);
      NextRound(combo[..], info, i, offset);
      offset := 0;
      StoreBlock(c, prk, info, tmpOut, out, i);
      LastBlockIf(c, prk, info, out[..], i);
    }
    return Ok(());
  }

  lemma {:induction false} StartRounds(c: Primitives, prk: Bytes, info: Bytes, combo: Bytes)
    requires |combo| == INFO_DEFAULT_SIZE && HASH_LEN + |info| + 1 <= INFO_DEFAULT_SIZE
    requires combo[HASH_LEN..HASH_LEN + |info|] == info
    ensures Round(combo, info, 1, HASH_LEN)
    ensures Blocks(c, prk, info, 0) == [] && Okm(c, prk, info, 0) == []
    ensures forall b: Bytes :: |b| == 0 ==> b == Okm(c, prk, info, 0)
  {
  }

  lemma {:induction false} NextBlock(c: Primitives, prk: Bytes, info: Bytes, i: nat)
    requires i >= 1
    ensures Block(c, prk, info, i) == c.hmac(prk, Block(c, prk, info, i - 1) + info + [U8(i)])
  {
  }

  lemma {:induction false} NextRound(combo: Bytes, info: Bytes, i: nat, offset: nat)
    requires |combo| == INFO_DEFAULT_SIZE && HASH_LEN + |info| + 1 <= INFO_DEFAULT_SIZE
    requires i >= 1 && Round(combo, info, i, offset)
    ensures Round(combo, info, i + 1, 0)
  {
  }

  lemma {:induction false} LastBlock(c: Primitives, prk: Bytes, info: Bytes, out: Bytes, i: nat)
    requires i == BlockCount(|out|)
    requires i * HASH_LEN <= |out| ==> out[..i * HASH_LEN] == Blocks(c, prk, info, i)
    requires |out| < i * HASH_LEN ==> out == Blocks(c, prk, info, i)[..|out|]
    ensures out == Okm(c, prk, info, |out|)
  {
    if i * HASH_LEN <= |out| {
      assert i * HASH_LEN == |out|;
      assert out[..|out|] == out;
    }
  }

  /** Copies T(i-1) to the front of the buffer and sets the counter byte at its end. */
  method RefillCombo(combo: array<byte>, tmpOut: Bytes, info: Bytes, i: nat, offset: nat)
    requires combo.Length == INFO_DEFAULT_SIZE && HASH_LEN + |info| + 1 <= INFO_DEFAULT_SIZE
    requires |tmpOut| == HASH_LEN && Round(combo[..], info, i, offset)
    modifies combo
    ensures Round(combo[..], info, i, offset)
    ensures combo[..HASH_LEN] == tmpOut && combo[HASH_LEN + |info|] == U8(i)
  {
    for k := 0 to HASH_LEN
      invariant combo[..k] == tmpOut[..k]
      invariant combo[HASH_LEN..HASH_LEN + |info|] == info
    {
      combo[k] := tmpOut[k];
    }
    combo[HASH_LEN + |info|] := U8(i);
  }

  // ----- the TINYCRYPT back-end -----

  /**
   * `hkdf_expand` over tinycrypt, whose counter is a byte: for 255 blocks it would never
   * exceed the block count (see ByteCounterEnds), and the call would not return.
   */
  method HkdfExpandTinycrypt(c: Primitives, prk: Bytes, info: Bytes, out: array<byte>) returns (r: Result<()>)
    requires out.Length < 0x1_0000_0000 && BlockCount(out.Length) != 255
    modifies out
    ensures r == if !Wraps(out.Length) && BlockCount(out.Length) > 255 then Fail(HkdfFailed) else Ok(())
    ensures out[..] == if r.Fail? || Wraps(out.Length) then old(out[..]) else Okm(c, prk, info, out.Length)
  {
    hide Okm, Blocks, Block;
    var iterations := U32(out.Length + 31) / 32;
    WrapsToNoRounds(out.Length);
    if iterations > 255 {
      return Fail(HkdfFailed);
    }
    var t: Bytes := Zeros(HASH_LEN);
    var i: byte := 1;
    NoBlocks(c, prk, info);
    assert out[..0] == [];
    while i <= iterations
      invariant 1 <= i <= iterations + 1
      invariant i > 1 ==> t == Block(c, prk, info, i - 1)
      invariant i <= iterations ==> out[..(i - 1) * HASH_LEN] == Blocks(c, prk, info, i - 1)
      invariant i > iterations && !Wraps(out.Length) ==> out[..] == Okm(c, prk, info, out.Length)
      invariant Wraps(out.Length) ==> out[..] == old(out[..])
      decreases iterations + 1 - i
    {
      t := c.hmac(prk, (if i > 1 then t else []) + info + [i]);
      NextBlock(c, prk, info, i);
      StoreBlock(c, prk, info, t, out, i);
      LastBlockIf(c, prk, info, out[..], i);
      i := U8(i + 1);
    }
    return Ok(());
  }

  lemma {:induction false} NoBlocks(c: Primitives, prk: Bytes, info: Bytes)
    ensures Block(c, prk, info, 0) == [] && Blocks(c, prk, info, 0) == []
    ensures forall b: Bytes :: |b| == 0 ==> b == Okm(c, prk, info, 0)
  {
  }

  lemma {:induction false} LastBlockIf(c: Primitives, prk: Bytes, info: Bytes, out: Bytes, i: nat)
    requires i * HASH_LEN <= |out| ==> out[..i * HASH_LEN] == Blocks(c, prk, info, i)
    requires |out| < i * HASH_LEN ==> out == Blocks(c, prk, info, i)[..|out|]
    ensures i == BlockCount(|out|) ==> out == Okm(c, prk, info, |out|)
  {
    if i == BlockCount(|out|) {
      LastBlock(c, prk, info, out, i);
    }
  }

  /** A byte that counts up from 1 ever exceeds the block count exactly when that is below 255. */
  lemma {:induction false} ByteCounterEnds(iterations: nat)
    ensures (exists steps: nat :: ByteCounter(steps) > iterations) <==> iterations < 255
  {
    if iterations < 255 {
      assert ByteCounter(iterations) > iterations;
    }
  }

  function ByteCounter(steps: nat): byte {
    U8(1 + steps)
  }
}
