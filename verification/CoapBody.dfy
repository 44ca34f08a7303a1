/**
 * The part that packets and decrypted plaintexts share: options, then an optional payload
 * behind a marker byte that the readers find by scanning for the first 0xFF.
 */
module CoapBody {
  import opened Common
  import opened CoapOption

  datatype Body = Body(options: seq<CoapOption>, payload: Bytes)

  function PayloadBytes(payload: Bytes): (r: Bytes)
    ensures payload == [] <==> r == []
  {
    if payload == [] then [] else [0xFF] + payload
  }

  function BodyBytes(b: Body): Bytes {
    EncodeOptions(b.options) + PayloadBytes(b.payload)
  }

  function ReadBody(reader: Reader, buf: Bytes, from: nat, slots: nat): Result<Body>
    requires from <= |buf|
  {
    var q := FindMarker(buf, from);
    var options :- ReadOptions(reader, buf, from, from + U16(q - from), 0, slots);
    Ok(Body(options, if q == |buf| then [] else buf[q + 1..]))
  }

  /** The scan for the payload marker, and what it delimits. */
  method ParseBody(reader: Reader, buf: Bytes, from: nat, slots: nat) returns (r: Result<Body>)
    requires from <= |buf|
    ensures r == ReadBody(reader, buf, from, slots)
  {
    hide ReadOptions, U16;
    U16OfZero();
    var p, payloadLen, optionsLen: uint16 := from, |buf| - from, 0;
    while payloadLen != 0 && buf[p] != 0xFF
      invariant from <= p <= |buf| && p + payloadLen == |buf|
      invariant FindMarker(buf, from) == FindMarker(buf, p)
      invariant optionsLen == U16(p - from)
    {
      U16Next(p - from);
      payloadLen := payloadLen - 1;
      p := p + 1;
      optionsLen := U16(optionsLen + 1);
    }
    var options :- ParseOptions(reader, buf, from, optionsLen, slots);
    return Ok(Body(options, if payloadLen == 0 then [] else buf[p + 1..]));
  }

  // ----- reading what was written -----

  /**
   * No payload marker inside the serialized options; when there is no payload, the very last
   * byte does not matter.
   */
  predicate Unmarked(b: Body) {
    var e := EncodeOptions(b.options);
    0xFF !in if b.payload == [] && e != [] then e[..|e| - 1] else e
  }

  lemma {:induction false} MarkerIs(buf: Bytes, from: nat, q: nat)
    requires from <= q <= |buf|
    requires forall i :: from <= i < q ==> buf[i] != 0xFF
    requires q == |buf| || buf[q] == 0xFF
    ensures FindMarker(buf, from) == q
  {
  }

  lemma {:induction false} PayloadBegins(payload: Bytes, buf: Bytes, end: nat)
    requires end <= |buf| && buf[end..] == PayloadBytes(payload)
    ensures end == |buf| <==> payload == []
    ensures end < |buf| ==> buf[end] == 0xFF && buf[end + 1..] == payload
  {
    if end < |buf| {
      assert buf[end] == buf[end..][0];
      assert buf[end + 1..] == buf[end..][1..];
    }
  }

  /** The marker is found at the end of the options, or one byte early when nothing follows. */
  lemma {:induction false} ReadFound(reader: Reader, buf: Bytes, from: nat, b: Body, cut: nat, slots: nat)
    requires At(buf, from, EncodeOptions(b.options)) && buf[from + |EncodeOptions(b.options)|..] == PayloadBytes(b.payload)
    requires Chained(0, b.options) && |b.options| <= slots && |EncodeOptions(b.options)| < 0x1_0000
    requires cut <= |EncodeOptions(b.options)| && (cut == 0 || cut < LastSize(b.options))
    requires FindMarker(buf, from) == from + |EncodeOptions(b.options)| - cut
    requires cut == 0 || (cut == 1 && b.payload == [])
    ensures ReadBody(reader, buf, from, slots) == Ok(b) <==> AllReadable(reader, b.options)
  {
    hide EncodeOption, EncodeOptions, LastSize, AllReadable, PayloadBytes, ReadOptions;
    PayloadBegins(b.payload, buf, from + |EncodeOptions(b.options)|);
    ReadWrittenOptions(reader, buf, from, b.options, cut, 0, slots);
  }

  /** A marker inside the options makes the payload grow. */
  lemma {:induction false} ReadEarly(reader: Reader, buf: Bytes, from: nat, b: Body, slots: nat)
    requires from <= |buf|
    requires |buf| - from == |EncodeOptions(b.options)| + |PayloadBytes(b.payload)|
    requires FindMarker(buf, from) < from + |EncodeOptions(b.options)| - if b.payload == [] then 1 else 0
    ensures ReadBody(reader, buf, from, slots) != Ok(b)
  {
    hide EncodeOptions, ReadOptions;
  }

  /**
   * Reading inverts writing exactly when every option is readable and no marker byte stands
   * inside the options.
   */
  lemma {:induction false} BodyRoundTrip(reader: Reader, buf: Bytes, from: nat, b: Body, slots: nat)
    requires At(buf, from, EncodeOptions(b.options)) && buf[from + |EncodeOptions(b.options)|..] == PayloadBytes(b.payload)
    requires Chained(0, b.options) && |b.options| <= slots && |EncodeOptions(b.options)| < 0x1_0000
    ensures ReadBody(reader, buf, from, slots) == Ok(b) <==> AllReadable(reader, b.options) && Unmarked(b)
  {
    hide EncodeOption, EncodeOptions, AllReadable, PayloadBytes, ReadBody;
    var e := EncodeOptions(b.options);
    var end, q := from + |e|, FindMarker(buf, from);
    PayloadBegins(b.payload, buf, end);
    if q >= end {
      assert forall i :: 0 <= i < |e| ==> e[i] == buf[from..end][i];
      MarkerIs(buf, from, end);
      ReadFound(reader, buf, from, b, 0, slots);
    } else {
      assert buf[from..end][q - from] == 0xFF;
      if b.payload == [] && q == end - 1 {
        assert forall i :: 0 <= i < |e| - 1 ==> e[i] == buf[from..end][i];
        EncodeNothing();
        LastByteOfOptions(b.options);
        ReadFound(reader, buf, from, b, 1, slots);
      } else {
        assert b.payload == [] ==> e[..|e| - 1][q - from] == 0xFF;
        assert |buf[end..]| == |buf| - end;
        ReadEarly(reader, buf, from, b, slots);
      }
    }
  }

  lemma {:induction false} EncodeNothing()
    ensures EncodeOptions([]) == []
  {
  }
}
