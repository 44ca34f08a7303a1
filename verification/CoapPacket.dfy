/** CoAP packets (section 3 of RFC 7252) as `buf2coap` reads them and `coap2buf` writes them. */
module CoapPacket {
  import opened Common
  import opened CoapOption
  import opened CoapBody

  const HEADER_LEN := 4
  const MAX_COAP_OPTIONS_LEN := 128

  const TYPE_ACK := 2
  const CODE_EMPTY := 0
  const CODE_REQ_POST := 2
  const CODE_RESP_CHANGED := 0x44

  type TwoBits = n: int | 0 <= n < 4
  type Token = t: Bytes | |t| < 16 witness []

  datatype Packet = Packet(
    ver: TwoBits, typ: TwoBits, code: byte, mid: uint16, token: Token, body: Body)

  /** The code class of requests: the mask 0xe0 leaves nothing. */
  predicate IsRequestCode(code: byte) { code < 32 }

  // ----- reading -----

  /** The masks and shifts of the first header byte. */
  function Ver(b: byte): TwoBits { b / 64 }
  function Typ(b: byte): TwoBits { b / 16 % 4 }
  function Tkl(b: byte): (n: nat)
    ensures n < 16
  {
    b % 16
  }

  function Word(hi: byte, lo: byte): uint16 {
    var h: int := hi;
    h * 0x100 + lo
  }

  function ReadPacket(buf: Bytes): Result<Packet> {
    if |buf| < HEADER_LEN then Fail(NotValidInputPacket) else
    var tkl, rest := Tkl(buf[0]), |buf| - HEADER_LEN;
    if rest != 0 && tkl > 8 then Fail(InvalidTkl) else
    if tkl > rest then Fail(Undefined) else
    var from := HEADER_LEN + tkl;
    var body :- ReadBody(Outer, buf, from, MAX_OPTION_COUNT);
    Ok(Packet(Ver(buf[0]), Typ(buf[0]), buf[1], Word(buf[2], buf[3]), buf[HEADER_LEN..from], body))
  }

  /** `buf2coap`. */
  method Buf2Coap(buf: Bytes) returns (r: Result<Packet>)
    ensures r == ReadPacket(buf)
  {
    hide Ver, Typ, Tkl, Word, ReadBody;
    var payloadLen := |buf|;
    if payloadLen < HEADER_LEN {
      return Fail(NotValidInputPacket);
    }
    var tkl := Tkl(buf[0]);
    payloadLen := payloadLen - HEADER_LEN;
    if payloadLen != 0 && tkl > 8 {
      return Fail(InvalidTkl);
    }
    if tkl > payloadLen {
      return Fail(Undefined);
    }
    var from := HEADER_LEN + tkl;
    var body :- ParseBody(Outer, buf, from, MAX_OPTION_COUNT);
    return Ok(Packet(Ver(buf[0]), Typ(buf[0]), buf[1], Word(buf[2], buf[3]), buf[HEADER_LEN..from], body));
  }

  // ----- writing -----

  function HeaderBytes(p: Packet): (r: Bytes)
    ensures |r| == HEADER_LEN
  {
    [p.ver * 64 + p.typ * 16 + |p.token|, p.code, p.mid / 0x100, p.mid % 0x100]
  }

  function Serialize(p: Packet): Bytes {
    HeaderBytes(p) + p.token + EncodeOptions(p.body.options) + PayloadBytes(p.body.payload)
  }

  /** The result of writing to a buffer of the given size. */
  function WritePacket(p: Packet, capacity: nat): (r: Result<Bytes>)
    ensures r.Ok? ==> r.value == Serialize(p) && |r.value| <= capacity
    ensures r.Ok? ==> MaxEncodedLen(p.body.options) <= MAX_COAP_OPTIONS_LEN
  {
    if capacity < HEADER_LEN then Fail(Undefined) else
    if capacity - HEADER_LEN < |p.token| then Fail(BufferToSmall) else
    if MAX_COAP_OPTIONS_LEN < MaxEncodedLen(p.body.options) then Fail(BufferToSmall) else
    var used := HEADER_LEN + |p.token| + |EncodeOptions(p.body.options)|;
    if capacity < used then Fail(BufferToSmall) else
    if p.body.payload != [] && capacity == used then Fail(Undefined) else
    if p.body.payload != [] && capacity - used - 1 < |p.body.payload| then Fail(BufferToSmall)
    else Ok(Serialize(p))
  }

  /** A packet can be written exactly when its options stay within their bound and all of it fits. */
  lemma {:induction false} WriteSucceedsIff(p: Packet, capacity: nat)
    ensures WritePacket(p, capacity).Ok? <==>
            MaxEncodedLen(p.body.options) <= 128 && |Serialize(p)| <= capacity
  {
    hide EncodeOptions, MaxEncodedLen;
  }

  /** The header of a packet that was read, byte by byte: at most eight token bytes, copied as they are. */
  lemma {:induction false} ReadHeaderIs(buf: Bytes)
    requires ReadPacket(buf).Ok?
    ensures var p := ReadPacket(buf).value;
      && 4 <= |buf| && |p.token| == buf[0] % 16 && |p.token| <= 8 && 4 + |p.token| <= |buf|
      && p.token == buf[4..4 + |p.token|] && p.code == buf[1] && p.typ == buf[0] / 16 % 4
      && HeaderBytes(p) == buf[..4]
  {
    hide ReadBody;
  }

  /** Only code, options and payload change: then the first bytes change only in the code. */
  lemma {:induction false} HeaderKept(p: Packet, q: Packet, capacity: nat)
    requires q == p.(code := q.code, body := q.body) && WritePacket(q, capacity).Ok?
    ensures var out, end := WritePacket(q, capacity).value, 4 + |p.token|;
      && end <= |out| && out[0] == HeaderBytes(p)[0] && out[1] == q.code
      && out[2..4] == HeaderBytes(p)[2..4] && out[4..end] == p.token
  {
    hide EncodeOptions, MaxEncodedLen, PayloadBytes;
    var out := Serialize(q);
    assert out[..4] == HeaderBytes(q);
    assert out[4..4 + |p.token|] == q.token;
    assert out[2..4] == out[..4][2..4];
  }

  /** `coap2buf`: on success the reported length is the number of bytes written. */
  method Coap2Buf(p: Packet, out: array<byte>) returns (r: Result<nat>)
    modifies out
    ensures WritePacket(p, out.Length).Fail? ==> r == Fail(WritePacket(p, out.Length).err)
    ensures WritePacket(p, out.Length).Ok? ==>
              && r == Ok(|Serialize(p)|) && r.value <= out.Length
              && out[..r.value] == Serialize(p)
  {
    hide EncodeOption, MaxEncodedLen;
    if out.Length < HEADER_LEN {
      return Fail(Undefined);
    }
    out[0] := p.ver * 64 + p.typ * 16 + |p.token|;
    out[1] := p.code;
    out[2] := p.mid / 0x100;
    out[3] := p.mid % 0x100;
    var pos := HEADER_LEN;
    assert out[..pos] == HeaderBytes(p);
    var _ :- CheckSize(out.Length - pos, |p.token|);
    Append(p.token, out, pos);
    pos := pos + |p.token|;
    var _ :- CheckSize(MAX_COAP_OPTIONS_LEN, MaxEncodedLen(p.body.options));
    var optionBytes := new byte[MAX_COAP_OPTIONS_LEN];
    var optionsLen := OptionsIntoByteString(p.body.options, optionBytes);
    var _ :- CheckSize(out.Length - pos, optionsLen);
    Append(optionBytes[..optionsLen], out, pos);
    pos := pos + optionsLen;
    if p.body.payload != [] {
      if pos == out.Length {
        return Fail(Undefined);
      }
      var _ :- CheckSize(out.Length - pos - 1, |p.body.payload|);
      Append([0xFF] + p.body.payload, out, pos);
    }
    return Ok(|Serialize(p)|);
  }

  // ----- reading what was written -----

  lemma {:induction false} HeaderReads(p: Packet, buf: Bytes)
    requires |buf| >= HEADER_LEN && buf[..HEADER_LEN] == HeaderBytes(p)
    ensures Ver(buf[0]) == p.ver && Typ(buf[0]) == p.typ && Tkl(buf[0]) == |p.token|
    ensures buf[1] == p.code && Word(buf[2], buf[3]) == p.mid
  {
    assert buf[0] == HeaderBytes(p)[0] && buf[1] == HeaderBytes(p)[1];
    assert buf[2] == HeaderBytes(p)[2] && buf[3] == HeaderBytes(p)[3];
    var tkl := |p.token|;
    assert (p.ver * 64 + p.typ * 16 + tkl) / 16 == p.ver * 4 + p.typ;
  }

  /** The four parts of a serialized packet, where they stand. */
  lemma {:induction false} SerializedParts(p: Packet)
    ensures var buf, from := Serialize(p), HEADER_LEN + |p.token|;
      && from <= |buf|
      && buf[..HEADER_LEN] == HeaderBytes(p)
      && buf[HEADER_LEN..from] == p.token
      && At(buf, from, EncodeOptions(p.body.options))
      && buf[from + |EncodeOptions(p.body.options)|..] == PayloadBytes(p.body.payload)
  {
    hide HeaderBytes, PayloadBytes, EncodeOptions;
  }

  /** What the reader makes of a packet behind a known header. */
  lemma {:induction false} ReadBehindHeader(p: Packet, buf: Bytes, from: nat)
    requires HEADER_LEN <= from <= HEADER_LEN + 8 && from <= |buf| && buf[HEADER_LEN..from] == p.token
    requires Ver(buf[0]) == p.ver && Typ(buf[0]) == p.typ && Tkl(buf[0]) == from - HEADER_LEN
    requires buf[1] == p.code && Word(buf[2], buf[3]) == p.mid
    ensures ReadPacket(buf) == Ok(p) <==> ReadBody(Outer, buf, from, MAX_OPTION_COUNT) == Ok(p.body)
  {
    hide Word, Ver, Typ, Tkl, ReadBody;
  }

  /**
   * `buf2coap` inverts `coap2buf` exactly for the packets without an extended option length
   * and without a marker byte inside the options.
   */
  lemma {:induction false} PacketRoundTrip(p: Packet, capacity: nat)
    requires |p.token| <= 8 && Chained(0, p.body.options) && |p.body.options| <= MAX_OPTION_COUNT
    requires WritePacket(p, capacity).Ok?
    ensures ReadPacket(WritePacket(p, capacity).value) == Ok(p) <==>
            AllReadable(Outer, p.body.options) && Unmarked(p.body)
  {
    hide EncodeOption, EncodeOptions, AllReadable, Unmarked, ReadPacket, PayloadBytes, Serialize, HeaderBytes;
    var buf, from := Serialize(p), HEADER_LEN + |p.token|;
    SerializedParts(p);
    HeaderReads(p, buf);
    ReadBehindHeader(p, buf, from);
    BodyRoundTrip(Outer, buf, from, p.body, MAX_OPTION_COUNT);
  }
}
