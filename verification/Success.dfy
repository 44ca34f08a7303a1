/** When `coap2oscore` succeeds: the sizes of plaintext, options, identifiers, PIV and buffer. */
module Success {
  import opened Common
  import opened Crypto
  import opened CoapOption
  import opened CoapBody
  import opened CoapPacket
  import opened OptionSplit
  import opened OptionMerge
  import opened OscoreOption
  import opened Nonce
  import opened Cose
  import opened SecurityContext
  import opened Protect

  /** The length of the plaintext that is encrypted. */
  function PlaintextSize(p: Packet): int {
    |PlaintextBytes(p.code, InnerBody(p))| - Shortfall(p.body.options, 0)
  }

  /**
   * Plaintext and E options fit their buffers, and the predicted length is exact or short by
   * just the payload with its marker.
   */
  predicate PlaintextFits(p: Packet) {
    var short := Shortfall(p.body.options, 0);
    && PlaintextSize(p) <= 128 && MaxEncodedLen(InnerBody(p).options) <= 30
    && (short == 0 || (p.body.payload != [] && short == 1 + |p.body.payload|))
  }

  lemma {:induction false} SetupSucceedsIff(p: Packet)
    requires Ordered(0, p.body.options)
    ensures var plaintext := SetupPlaintext(p.code, InnerBody(p), PredictedLen(p.body.options, 0));
      && (plaintext.Ok? <==> PlaintextFits(p))
      && (plaintext.Ok? ==> |plaintext.value| == PlaintextSize(p))
  {
    hide Select, PredictedLen, EncodeOptions, MaxEncodedLen, Ordered, SetupPlaintext, Shortfall;
    PlaintextOutcome(p.code, p.body.options, p.body.payload);
  }

  lemma {:induction false} PrepareSucceedsIff(order: ByteOrder, s: State)
    ensures var piv := SsnToPiv(s.sc.seqNum, order);
      && (PrepareRequest(order, s).0.Ok? <==> piv.Ok? && 7 + |s.rrc.kid| + |piv.value| <= |s.rrc.aad|)
      && (PrepareRequest(order, s).0.Ok? ==> |PrepareRequest(order, s).1.rrc.aad| == 7 + |s.rrc.kid| + |piv.value|)
  {
    hide SsnToPiv, MakeNonce, Aad, EncodeValue;
    var piv := SsnToPiv(s.sc.seqNum, order);
    if piv.Ok? {
      AadLen(s.rrc.kid, piv.value);
    }
  }

  /** The OSCORE packet around a plaintext of the given length fits its option buffer and the output buffer. */
  predicate OuterFits(p: Packet, value: OptionValue, plaintextLen: int, capacity: nat) {
    var u := Select(p.body.options, 0, 0, false);
    && |u| < 20
    && MaxEncodedLen(WithOscore(u, value)) <= 128
    && 4 + |p.token| + |EncodeOptions(WithOscore(u, value))| + 1 + plaintextLen + 8 <= capacity
  }

  lemma {:induction false} SealSucceedsIff(
      c: Primitives, p: Packet, plaintext: Bytes, value: OptionValue, s: State, capacity: nat)
    requires c.Laws() && |plaintext| <= MAX_PLAINTEXT_LEN
    ensures Seal(c, p, plaintext, value, s, capacity).Ok? <==>
            |s.rrc.aad| <= 14 && OuterFits(p, value, |plaintext|, capacity)
  {
    hide Select, WithOscore, EncodeOptions, MaxEncodedLen, EncStructure, WritePacket;
    var ciphertext := Encrypt(c, plaintext, s.rrc.nonce, s.rrc.aad, s.sc.key);
    if ciphertext.Ok? {
      WriteSucceedsIff(OuterPacket(p, value, ciphertext.value), capacity);
    }
  }

  /**
   * A request is protected if and only if its plaintext fits, a PIV exists for the next number,
   * KID and PIV have at most 7 bytes together and fit the AAD buffer, and the OSCORE packet
   * fits.  All of it can be checked before the call.
   */
  lemma {:induction false} RequestSucceedsIff(
      c: Primitives, order: ByteOrder, buf: Bytes, capacity: nat, s: State)
    requires c.Laws() && IsRequest(buf) && Ordered(0, ReadPacket(buf).value.body.options)
    ensures var p, piv := ReadPacket(buf).value, SsnToPiv(s.sc.seqNum, order);
      ProtectBytes(c, order, buf, capacity, s).0.Ok? <==>
        && PlaintextFits(p)
        && piv.Ok? && |s.rrc.kid| + |piv.value| <= 7 && 7 + |s.rrc.kid| + |piv.value| <= |s.rrc.aad|
        && OuterFits(p, NextOptionValue(order, s), PlaintextSize(p), capacity)
  {
    hide ReadPacket, SetupPlaintext, PrepareRequest, Seal, Select, PredictedLen, Ordered, SsnToPiv;
    hide PlaintextFits, OuterFits, NextOptionValue, PlaintextSize;
    var p := ReadPacket(buf).value;
    SetupSucceedsIff(p);
    PrepareSucceedsIff(order, s);
    var plaintext := SetupPlaintext(p.code, InnerBody(p), PredictedLen(p.body.options, 0));
    var (value, s1) := PrepareRequest(order, s);
    if plaintext.Ok? && value.Ok? {
      NextValueIs(order, s);
      PlaintextIsSmall(p);
      SealSucceedsIff(c, p, plaintext.value, value.value, s1, capacity);
    }
  }

  lemma {:induction false} PlaintextIsSmall(p: Packet)
    requires PlaintextFits(p)
    ensures PlaintextSize(p) <= MAX_PLAINTEXT_LEN
  {
  }

  /** A response is protected if and only if its plaintext and the OSCORE packet fit and the stored AAD has at most 14 bytes. */
  lemma {:induction false} ResponseSucceedsIff(
      c: Primitives, order: ByteOrder, buf: Bytes, capacity: nat, s: State)
    requires c.Laws() && IsResponse(buf) && Ordered(0, ReadPacket(buf).value.body.options)
    ensures var p := ReadPacket(buf).value;
      ProtectBytes(c, order, buf, capacity, s).0.Ok? <==>
        PlaintextFits(p) && |s.rrc.aad| <= 14 && OuterFits(p, [], PlaintextSize(p), capacity)
  {
    hide ReadPacket, SetupPlaintext, Seal, Select, PredictedLen, Ordered, PlaintextFits, OuterFits, PlaintextSize;
    var p := ReadPacket(buf).value;
    SetupSucceedsIff(p);
    var plaintext := SetupPlaintext(p.code, InnerBody(p), PredictedLen(p.body.options, 0));
    if plaintext.Ok? {
      PlaintextIsSmall(p);
      SealSucceedsIff(c, p, plaintext.value, [], s, capacity);
    }
  }
}
