/** `coap2oscore`: from a CoAP packet to an OSCORE packet. */
module Protect {
  import opened Common
  import opened Crypto
  import opened CoapOption
  import opened CoapBody
  import opened CoapPacket
  import opened OptionSplit
  import opened OptionMerge
  import opened OscoreOption
  import opened Nonce
  import opened Cose
  import opened SecurityContext

  const MAX_PLAINTEXT_LEN := 128
  const MAX_CIPHERTEXT_LEN := 136
  const MAX_E_OPTIONS := 30

  // ----- the plaintext -----

  function PlaintextBytes(code: byte, body: Body): Bytes {
    [code] + BodyBytes(body)
  }

  function PlaintextLen(predicted: nat, payload: Bytes): nat {
    1 + predicted + if payload == [] then 0 else 1 + |payload|
  }

  /**
   * Checks and result of `plaintext_setup`: the plaintext has the length that was predicted
   * from the options, whatever was written to the buffer.  The space left for the payload
   * is a 32-bit difference.
   */
  function SetupPlaintext(code: byte, body: Body, predicted: nat): Result<Bytes> {
    var len: int, optionsLen: int := PlaintextLen(predicted, body.payload), |EncodeOptions(body.options)|;
    if MAX_PLAINTEXT_LEN < len then Fail(BufferToSmall) else
    if MAX_E_OPTIONS < MaxEncodedLen(body.options) then Fail(BufferToSmall) else
    if len - 1 < optionsLen then Fail(BufferToSmall) else
    if body.payload != [] && U32(len - 2 - optionsLen) < |body.payload| then Fail(BufferToSmall) else
    if |PlaintextBytes(code, body)| < len then Fail(Undefined)
    else Ok(PlaintextBytes(code, body)[..len])
  }

  /** `plaintext_setup`, in the plaintext buffer of `coap2oscore`. */
  method PlaintextSetup(code: byte, body: Body, predicted: nat) returns (r: Result<Bytes>)
    ensures r == SetupPlaintext(code, body, predicted)
  {
    hide EncodeOption, EncodeOptions, MaxEncodedLen, PayloadBytes;
    var len := PlaintextLen(predicted, body.payload);
    var _ :- CheckSize(MAX_PLAINTEXT_LEN, len);
    var plaintext := new byte[MAX_PLAINTEXT_LEN];
    plaintext[0] := code;
    var _ :- CheckSize(MAX_E_OPTIONS, MaxEncodedLen(body.options));
    var optionBytes := new byte[MAX_E_OPTIONS];
    var optionsLen := OptionsIntoByteString(body.options, optionBytes);
    var _ :- CheckSize(len - 1, optionsLen);
    assert plaintext[..1] == [code];
    Append(optionBytes[..optionsLen], plaintext, 1);
    var written :- AppendPayload(body.payload, plaintext, 1 + optionsLen, len);
    assert plaintext[..written] == PlaintextBytes(code, body);
    if written < len {
      return Fail(Undefined);
    }
    assert plaintext[..len] == plaintext[..written][..len];
    return Ok(plaintext[..len]);
  }

  /** The payload part of `plaintext_setup`; returns the end of what has been written. */
  method AppendPayload(payload: Bytes, plaintext: array<byte>, pos: nat, len: nat) returns (r: Result<nat>)
    requires plaintext.Length == MAX_PLAINTEXT_LEN && 1 <= pos <= len <= MAX_PLAINTEXT_LEN && pos <= 1 + MAX_E_OPTIONS
    requires payload != [] ==> 1 + |payload| < len
    modifies plaintext
    ensures var space: int := len - 1 - pos;
      if payload != [] && U32(space) < |payload| then r == Fail(BufferToSmall)
      else
        && r == Ok(pos + |PayloadBytes(payload)|) && r.value <= plaintext.Length
        && plaintext[..r.value] == old(plaintext[..pos]) + PayloadBytes(payload)
  {
    if payload == [] {
      assert plaintext[..pos] + [] == plaintext[..pos];
      return Ok(pos);
    }
    var space: int := len - 1 - pos;
    var _ :- CheckSize(U32(space), |payload|);
    DroppedPayloadFits(len, pos - 1, payload);
    Append([0xFF] + payload, plaintext, pos);
    return Ok(pos + 1 + |payload|);
  }

  /** What passes the 32-bit size check stays inside the buffer. */
  lemma {:induction false} DroppedPayloadFits(len: nat, optionsLen: nat, payload: Bytes)
    requires optionsLen <= MAX_E_OPTIONS && optionsLen <= len - 1 && 1 + |payload| < len <= MAX_PLAINTEXT_LEN
    requires var space: int := len - 2 - optionsLen; |payload| <= U32(space)
    ensures 1 + optionsLen + 1 + |payload| <= MAX_PLAINTEXT_LEN
  {
  }

  /**
   * When the prediction falls short, the packet is rejected, unless it falls short by exactly
   * the payload and its marker: then the payload is silently dropped.
   */
  lemma {:induction false} SetupPlaintextCases(code: byte, body: Body, predicted: nat)
    requires predicted <= |EncodeOptions(body.options)|
    requires PlaintextLen(predicted, body.payload) <= MAX_PLAINTEXT_LEN && MaxEncodedLen(body.options) <= MAX_E_OPTIONS
    ensures var short := |EncodeOptions(body.options)| - predicted;
      SetupPlaintext(code, body, predicted) ==
      if short == 0 then Ok(PlaintextBytes(code, body))
      else if body.payload != [] && short == 1 + |body.payload| then Ok([code] + EncodeOptions(body.options))
      else Fail(BufferToSmall)
  {
    hide EncodeOptions, MaxEncodedLen;
    var e, full := EncodeOptions(body.options), PlaintextBytes(code, body);
    assert full == [code] + e + PayloadBytes(body.payload);
    assert full[..|full|] == full;
    assert full[..1 + |e|] == [code] + e;
  }

  /**
   * What becomes of a packet's plaintext: by how much the prediction falls short decides
   * whether it is right, loses its payload, or is rejected.
   */
  lemma {:induction false} PlaintextOutcome(code: byte, os: seq<CoapOption>, payload: Bytes)
    requires Ordered(0, os)
    ensures var body := Body(Select(os, 0, 0, true), payload);
      var full, short := PlaintextBytes(code, body), Shortfall(os, 0);
      SetupPlaintext(code, body, PredictedLen(os, 0)) ==
      if |full| - short > 128 || MaxEncodedLen(body.options) > 30 then Fail(BufferToSmall)
      else if short == 0 then Ok(full)
      else if payload != [] && short == 1 + |payload| then Ok([code] + EncodeOptions(body.options))
      else Fail(BufferToSmall)
  {
    hide Select, PredictedLen, EncodeOptions, MaxEncodedLen, Ordered, Shortfall;
    var body := Body(Select(os, 0, 0, true), payload);
    PredictedLenIs(os, 0, 0);
    if PlaintextLen(PredictedLen(os, 0), payload) <= MAX_PLAINTEXT_LEN && MaxEncodedLen(body.options) <= MAX_E_OPTIONS {
      hide SetupPlaintext;
      SetupPlaintextCases(code, body, PredictedLen(os, 0));
    }
  }

  /** The plaintext is the right one exactly for well-sized E options that fit the buffers. */
  lemma {:induction false} PlaintextFaithfulIff(code: byte, os: seq<CoapOption>, payload: Bytes)
    requires Ordered(0, os)
    ensures var body := Body(Select(os, 0, 0, true), payload);
      SetupPlaintext(code, body, PredictedLen(os, 0)) == Ok(PlaintextBytes(code, body)) <==>
        && (forall k :: 0 <= k < |os| && !Unprotected(os[k].number) ==> WellSized(os, k))
        && |PlaintextBytes(code, body)| <= 128 && MaxEncodedLen(body.options) <= 30
  {
    hide Select, PredictedLen, SetupPlaintext, EncodeOptions, MaxEncodedLen, Ordered, Shortfall, WellSized;
    var body := Body(Select(os, 0, 0, true), payload);
    PlaintextOutcome(code, os, payload);
    PayloadCounts(code, body);
    assert os[0..] == os;
    NoShortfallIff(os, 0);
  }

  /**
   * A packet whose options are all encrypted: its plaintext is code, options and payload if no
   * delta and no length is 13; with one or more of them it is rejected, except when they are as
   * many as payload and marker have bytes.
   */
  lemma {:induction false} ThirteensDecide(code: byte, os: seq<CoapOption>, payload: Bytes)
    requires Ordered(0, os) && AllProtected(os)
    requires |PlaintextBytes(code, Body(os, payload))| <= 128 && MaxEncodedLen(os) <= 30
    ensures Select(os, 0, 0, true) == os
    ensures SetupPlaintext(code, Body(os, payload), PredictedLen(os, 0)) ==
      if Thirteens(os) == 0 then Ok([code] + EncodeOptions(os) + if payload == [] then [] else [0xFF] + payload)
      else if payload != [] && Thirteens(os) == 1 + |payload| then Ok([code] + EncodeOptions(os))
      else Fail(BufferToSmall)
  {
    hide PredictedLen, SetupPlaintext, EncodeOptions, MaxEncodedLen, Ordered, Shortfall, Thirteens, AllProtected, Select;
    ThirteensAreMissing(os, 0);
    PlaintextOutcome(code, os, payload);
    assert PlaintextBytes(code, Body(os, payload)) ==
           [code] + EncodeOptions(os) + if payload == [] then [] else [0xFF] + payload;
  }

  lemma {:induction false} PayloadCounts(code: byte, body: Body)
    ensures body.payload != [] ==> |PlaintextBytes(code, body)| > |[code] + EncodeOptions(body.options)|
  {
  }

  // ----- the request part of the context -----

  /**
   * A request consumes a sequence number whatever happens next, and refreshes the
   * request-response context.
   */
  function PrepareRequest(order: ByteOrder, s: State): (Result<OptionValue>, State) {
    var ssn: int := s.sc.seqNum;
    var s1 := s.(sc := s.sc.(seqNum := U64(ssn + 1)));
    var piv := SsnToPiv(s.sc.seqNum, order);
    if piv.Fail? then (Fail(piv.err), s1) else
    var (r, s2) := Refresh(s1.(rrc := s1.rrc.(piv := piv.value)));
    if r.Fail? then (Fail(r.err), s2)
    else (Ok(OptionValueOf(s2.rrc)), s2)
  }

  function OptionValueOf(rrc: ReqRespContext): OptionValue {
    EncodeValue(rrc.piv, rrc.kid, rrc.kidContext)
  }

  /** The value of the next request's OSCORE option, as far as a PIV can be created for it. */
  function NextOptionValue(order: ByteOrder, s: State): OptionValue {
    var piv := SsnToPiv(s.sc.seqNum, order);
    if piv.Fail? then [] else EncodeValue(piv.value, s.rrc.kid, s.rrc.kidContext)
  }

  /** The option value is known before the call. */
  lemma {:induction false} NextValueIs(order: ByteOrder, s: State)
    requires PrepareRequest(order, s).0.Ok?
    ensures PrepareRequest(order, s).0.value == NextOptionValue(order, s)
    ensures OptionValueOf(PrepareRequest(order, s).1.rrc) == NextOptionValue(order, s)
  {
    hide SsnToPiv, MakeNonce, Aad, EncodeValue;
  }

  // ----- the whole transform -----

  /** What is encrypted of a packet, besides its code. */
  function InnerBody(p: Packet): Body {
    Body(Select(p.body.options, 0, 0, true), p.body.payload)
  }

  predicate IsMessagingLayer(p: Packet) {
    p.code == CODE_EMPTY && p.typ == TYPE_ACK
  }

  function OuterPacket(p: Packet, value: OptionValue, ciphertext: Bytes): Packet {
    p.(code := if IsRequestCode(p.code) then CODE_REQ_POST else CODE_RESP_CHANGED,
       body := Body(WithOscore(Select(p.body.options, 0, 0, false), value), ciphertext))
  }

  /** The packets a client sends as requests. */
  predicate IsRequest(buf: Bytes) {
    var p := ReadPacket(buf);
    p.Ok? && IsRequestCode(p.value.code) && !IsMessagingLayer(p.value)
  }

  predicate IsResponse(buf: Bytes) {
    var p := ReadPacket(buf);
    p.Ok? && !IsRequestCode(p.value.code)
  }

  /** Encrypting a plaintext under the prepared context and wrapping it up. */
  function Seal(
      c: Primitives, p: Packet, plaintext: Bytes, value: OptionValue, s: State, capacity: nat): Result<Bytes> {
    if MAX_CIPHERTEXT_LEN < |plaintext| + AUTH_TAG_LEN then Fail(BufferToSmall) else
    var ciphertext :- Encrypt(c, plaintext, s.rrc.nonce, s.rrc.aad, s.sc.key);
    if |Select(p.body.options, 0, 0, false)| >= MAX_OPTION_COUNT then Fail(Undefined)
    else WritePacket(OuterPacket(p, value, ciphertext), capacity)
  }

  function ProtectPacket(c: Primitives, order: ByteOrder, p: Packet, capacity: nat, s: State): (Result<Bytes>, State) {
    var plaintext := SetupPlaintext(p.code, InnerBody(p), PredictedLen(p.body.options, 0));
    if plaintext.Fail? then (plaintext, s) else
    var (value, s1) := if IsRequestCode(p.code) then PrepareRequest(order, s) else (Ok([]), s);
    if value.Fail? then (Fail(value.err), s1)
    else (Seal(c, p, plaintext.value, value.value, s1, capacity), s1)
  }

  /** The result of `coap2oscore` and the context it leaves; `capacity` is the size of the output buffer. */
  function ProtectBytes(c: Primitives, order: ByteOrder, buf: Bytes, capacity: nat, s: State): (Result<Bytes>, State) {
    var p := ReadPacket(buf);
    if p.Fail? then (Fail(p.err), s)
    else if IsMessagingLayer(p.value) then (if capacity < |buf| then Fail(Undefined) else Ok(buf), s)
    else ProtectPacket(c, order, p.value, capacity, s)
  }

  // ----- the imperative form -----

  /** The client half: sequence number, PIV, nonce, associated data and OSCORE option value. */
  method PrepareRequestContext(
      order: ByteOrder, options: seq<CoapOption>, ctx: Context) returns (r: Result<OptionValue>)
    requires ctx.Valid()
    modifies ctx
    ensures ctx.Valid() && (r, ctx.Contents()) == PrepareRequest(order, old(ctx.Contents()))
  {
    hide SsnToPiv, Refresh, EncodeValue;
    var ssn: int := ctx.sc.seqNum;
    ctx.sc := ctx.sc.(seqNum := U64(ssn + 1));
    var piv :- SenderSeqNum2Piv(ssn, order);
    ctx.rrc := ctx.rrc.(piv := piv);
    RefreshKeepsPiv(ctx.Contents());
    var _ :- ctx.RefreshNonceAndAad(options);
    var len := OptValLen(ctx.rrc.piv, ctx.rrc.kid, ctx.rrc.kidContext);
    EncodedLen(ctx.rrc.piv, ctx.rrc.kid, ctx.rrc.kidContext);
    if len > OSCORE_OPT_VALUE_LEN {
      return Fail(ValueLenTooLong);
    }
    var value := new byte[len];
    OscoreOptionGenerate(ctx.rrc.piv, ctx.rrc.kid, ctx.rrc.kidContext, value);
    return Ok(value[..]);
  }

  lemma {:induction false} RefreshKeepsPiv(s: State)
    ensures Refresh(s).1.rrc.piv == s.rrc.piv && Refresh(s).1.rrc.kid == s.rrc.kid
    ensures Refresh(s).1.rrc.kidContext == s.rrc.kidContext
    ensures Refresh(s).1 == s.(rrc := Refresh(s).1.rrc)
    ensures |Refresh(s).1.rrc.aad| <= |s.rrc.aad|
  {
  }

  /** `coap2oscore`. */
  method Coap2Oscore(
      c: Primitives, order: ByteOrder, buf: Bytes, capacity: nat, ctx: Context) returns (r: Result<Bytes>)
    requires ctx.Valid()
    modifies ctx
    ensures ctx.Valid() && (r, ctx.Contents()) == ProtectBytes(c, order, buf, capacity, old(ctx.Contents()))
  {
    hide ReadPacket, PrepareRequest, Encrypt, WritePacket, SetupPlaintext, Select, PredictedLen, WithOscore;
    var p :- Buf2Coap(buf);
    if IsMessagingLayer(p) {
      return if capacity < |buf| then Fail(Undefined) else Ok(buf);
    }
    var e, eLen, u := EUOptionsExtract(p.body.options);
    var plaintext :- PlaintextSetup(p.code, Body(e, p.body.payload), eLen);
    var value: OptionValue := [];
    if IsRequestCode(p.code) {
      value :- PrepareRequestContext(order, p.body.options, ctx);
    }
    var _ :- CheckSize(MAX_CIPHERTEXT_LEN, |plaintext| + AUTH_TAG_LEN);
    var ciphertext :- Encrypt(c, plaintext, ctx.rrc.nonce, ctx.rrc.aad, ctx.sc.key);
    var outer :- InsertOscoreOption(u, value);
    var out := new byte[capacity];
    var packet := p.(code := if IsRequestCode(p.code) then CODE_REQ_POST else CODE_RESP_CHANGED,
                     body := Body(outer, ciphertext));
    var len :- Coap2Buf(packet, out);
    return Ok(out[..len]);
  }
}
