/** The EDHOC messages as CBOR sequences: what one side encodes the other side parses. */
module Messages {
  import opened Common
  import opened Cbor
  import opened Transcript

  const MSG_1_SIZE := 255
  const MSG_SIZE := 700
  const CIPHERTEXT_SIZE := 650
  const G_SIZE := 33
  const C_R_SIZE := 1
  const SUITES_I_SIZE := 5
  const MAX_SUITES := 10

  // ----- message 1 -----

  function EncodeInts(s: seq<byte>): Bytes {
    if s == [] then [] else EncodeInt(s[0]) + EncodeInts(s[1..])
  }

  /** A single suite is an integer, several are an array. */
  function EncodeSuites(suites: seq<byte>): (r: Bytes) {
    if |suites| == 1 then EncodeInt(suites[0]) else Head(List, |suites|) + EncodeInts(suites)
  }

  datatype Message1 = Message1(methodType: int32, suites: seq<byte>, gX: Bytes, cI: ConnectionId, ead1: Bytes)

  function Message1Bytes(m: Message1): Bytes {
    EncodeInt(m.methodType) + EncodeSuites(m.suites) + EncodeBstr(m.gX) + EncodeId(m.cI) + OptionalBstr(m.ead1)
  }

  /** The encoding part of `msg1_gen`; the C struct has room for ten suites. */
  function EncodeMessage1(m: Message1): Result<Bytes> {
    if m.suites == [] || MAX_SUITES < |m.suites| then Fail(Undefined)
    else if MSG_1_SIZE < |Message1Bytes(m)| then Fail(UnexpectedResult)
    else Ok(Message1Bytes(m))
  }

  /** Message 1 can be made with one to ten suites, up to 255 bytes. */
  lemma {:induction false} Message1Iff(m: Message1)
    ensures EncodeMessage1(m).Ok? <==> 1 <= |m.suites| <= 10 && |Message1Bytes(m)| <= 255
  {
    hide Message1Bytes;
  }

  function ReadInts(buf: Bytes, pos: nat, n: nat): (r: Result<Item<seq<int>>>)
    requires pos <= |buf|
    ensures r.Ok? ==> |r.value.value| == n && pos <= r.value.next <= |buf|
    decreases n
  {
    if n == 0 then Ok(Item([], pos))
    else
      var i :- ReadInt(buf, pos);
      var rest :- ReadInts(buf, i.next, n - 1);
      Ok(Item([i.value] + rest.value, rest.next))
  }

  /** An array of two to ten integers, or one integer. */
  function ReadSuites(buf: Bytes, pos: nat): (r: Result<Item<seq<int>>>)
    ensures r.Ok? ==> 1 <= |r.value.value| && pos < r.value.next <= |buf|
  {
    var list := Expect(buf, pos, List);
    if list.Ok? then
      if 2 <= list.value.value <= MAX_SUITES then ReadInts(buf, list.value.next, list.value.value)
      else Fail(UnexpectedResult)
    else
      var i :- ReadInt(buf, pos);
      Ok(Item([i.value], i.next))
  }

  function AsBytes(s: seq<int>): (r: seq<byte>)
    ensures |r| == |s|
  {
    if s == [] then [] else [U8(s[0])] + AsBytes(s[1..])
  }

  /** What the responder takes from message 1; C_I is parsed but not used. */
  datatype Parsed1 = Parsed1(methodType: int, suites: seq<byte>, gX: Bytes, ead1: Bytes)

  /** `msg1_parse`; `eadCapacity` is the size of the caller's buffer. */
  function ParseMessage1(msg1: Bytes, eadCapacity: nat): (r: Result<Parsed1>)
    ensures r.Ok? ==> 1 <= |r.value.suites| <= SUITES_I_SIZE
  {
    var methodType :- ReadInt(msg1, 0);
    var suites :- ReadSuites(msg1, methodType.next);
    var gX :- ReadBstr(msg1, suites.next);
    var cI :- ReadId(msg1, gX.next);
    var ead1 := ReadBstr(msg1, cI.next);
    if SUITES_I_SIZE < |suites.value| then Fail(SuitesIListTooLong)
    else if G_SIZE < |gX.value| then Fail(BufferToSmall)
    else if ead1.Ok? && eadCapacity < |ead1.value.value| then Fail(BufferToSmall)
    else Ok(Parsed1(methodType.value, AsBytes(suites.value), gX.value, if ead1.Ok? then ead1.value.value else []))
  }

  lemma {:induction false} ReadIntsAt(buf: Bytes, pos: nat, s: seq<byte>)
    requires At(buf, pos, EncodeInts(s))
    ensures var r := ReadInts(buf, pos, |s|);
      && r.Ok? && r.value.next == pos + |EncodeInts(s)| && AsBytes(r.value.value) == s
    decreases |s|
  {
    hide ReadInt, EncodeInt, At;
    AtBounds(buf, pos, EncodeInts(s));
    if s != [] {
      AtSplit(buf, pos, EncodeInt(s[0]), EncodeInts(s[1..]));
      ReadIntAt(buf, pos, s[0]);
      ReadIntsAt(buf, pos + |EncodeInt(s[0])|, s[1..]);
    }
  }

  lemma {:induction false} AtBounds(buf: Bytes, pos: nat, part: Bytes)
    requires At(buf, pos, part)
    ensures pos + |part| <= |buf|
  {
  }

  lemma {:induction false} ReadSuitesAt(buf: Bytes, pos: nat, suites: seq<byte>)
    requires 1 <= |suites| <= MAX_SUITES && At(buf, pos, EncodeSuites(suites))
    ensures var r := ReadSuites(buf, pos);
      && r.Ok? && r.value.next == pos + |EncodeSuites(suites)| && AsBytes(r.value.value) == suites
  {
    hide ReadHead, Head, At, ReadInts, EncodeInts;
    if |suites| == 1 {
      IntIsNoList(buf, pos, suites[0]);
      ReadIntAt(buf, pos, suites[0]);
      assert [suites[0]] == suites;
    } else {
      AtSplit(buf, pos, Head(List, |suites|), EncodeInts(suites));
      ExpectAt(buf, pos, List, |suites|);
      ReadIntsAt(buf, pos + |Head(List, |suites|)|, suites);
    }
  }

  lemma {:induction false} IntIsNoList(buf: Bytes, pos: nat, i: byte)
    requires At(buf, pos, EncodeInt(i))
    ensures Expect(buf, pos, List).Fail?
  {
    hide At, Head, ReadHead;
    ReadHeadAt(buf, pos, Unsigned, i);
  }

  lemma {:induction false} Message1Parts(m: Message1)
    requires EncodeMessage1(m).Ok?
    ensures var buf := Message1Bytes(m);
      var p1, p2, p3 := |EncodeInt(m.methodType)|, |EncodeSuites(m.suites)|, |EncodeBstr(m.gX)|;
      && At(buf, 0, EncodeInt(m.methodType)) && At(buf, p1, EncodeSuites(m.suites))
      && At(buf, p1 + p2, EncodeBstr(m.gX)) && At(buf, p1 + p2 + p3, EncodeId(m.cI))
      && At(buf, p1 + p2 + p3 + |EncodeId(m.cI)|, OptionalBstr(m.ead1))
      && |buf| == p1 + p2 + p3 + |EncodeId(m.cI)| + |OptionalBstr(m.ead1)|
  {
    hide EncodeInt, EncodeSuites, EncodeBstr, EncodeId, OptionalBstr, At;
    var buf := Message1Bytes(m);
    var a, b, g, d, e := EncodeInt(m.methodType), EncodeSuites(m.suites), EncodeBstr(m.gX), EncodeId(m.cI), OptionalBstr(m.ead1);
    AtWhole(buf);
    AtSplit(buf, 0, a + b + g + d, e);
    AtSplit(buf, 0, a + b + g, d);
    AtSplit3(buf, 0, a, b, g);
  }

  /**
   * Parsing what was encoded gives back method, suites, G_X and EAD_1, except that the
   * responder refuses more than five suites and what exceeds its buffers.
   */
  lemma {:induction false} Message1RoundTrip(m: Message1, eadCapacity: nat)
    requires EncodeMessage1(m).Ok?
    ensures ParseMessage1(EncodeMessage1(m).value, eadCapacity) ==
      if |m.suites| > 5 then Fail(SuitesIListTooLong)
      else if |m.gX| > 33 || |m.ead1| > eadCapacity then Fail(BufferToSmall)
      else Ok(Parsed1(m.methodType, m.suites, m.gX, m.ead1))
  {
    hide EncodeInt, EncodeSuites, EncodeBstr, OptionalBstr, At, ReadInt, ReadSuites, ReadBstr, ReadId;
    var buf := Message1Bytes(m);
    var p1, p2, p3 := |EncodeInt(m.methodType)|, |EncodeSuites(m.suites)|, |EncodeBstr(m.gX)|;
    Message1Parts(m);
    ReadIntAt(buf, 0, m.methodType);
    ReadSuitesAt(buf, p1, m.suites);
    ReadBstrAt(buf, p1 + p2, m.gX);
    ReadIdAt(buf, p1 + p2 + p3, m.cI);
    OptionalBstrReads(buf, p1 + p2 + p3 + |EncodeId(m.cI)|, m.ead1);
  }

  // ----- message 2 -----

  function Message2Bytes(gY: Bytes, cR: ConnectionId, ciphertext2: Bytes): Bytes {
    EncodeBstr(gY + ciphertext2) + EncodeId(cR)
  }

  /** `msg2_encode` */
  function EncodeMessage2(gY: Bytes, cR: ConnectionId, ciphertext2: Bytes): Result<Bytes> {
    if G_SIZE + CIPHERTEXT_SIZE < |gY| + |ciphertext2| then Fail(BufferToSmall)
    else if MSG_SIZE < |Message2Bytes(gY, cR, ciphertext2)| then Fail(UnexpectedResult)
    else Ok(Message2Bytes(gY, cR, ciphertext2))
  }

  /** Message 2 can be made up to 683 bytes of G_Y and ciphertext, and 700 bytes in all. */
  lemma {:induction false} Message2Iff(gY: Bytes, cR: ConnectionId, ciphertext2: Bytes)
    ensures EncodeMessage2(gY, cR, ciphertext2).Ok? <==>
            |gY| + |ciphertext2| <= 683 && |EncodeBstr(gY + ciphertext2)| + |EncodeId(cR)| <= 700
  {
    hide EncodeBstr, EncodeId;
  }

  datatype Parsed2 = Parsed2(gY: Bytes, cR: ConnectionId, ciphertext2: Bytes)

  /** `msg2_parse`: a byte-string C_R is copied to a buffer of one byte whatever its length. */
  function ParseMessage2(msg2: Bytes, gYLen: nat): Result<Parsed2> {
    var both :- ReadBstr(msg2, 0);
    var cR :- ReadId(msg2, both.next);
    if |both.value| < gYLen || CIPHERTEXT_SIZE < |both.value| - gYLen then Fail(BufferToSmall)
    else if cR.value.BstrId? && C_R_SIZE < |cR.value.bytes| then Fail(Undefined)
    else Ok(Parsed2(both.value[..gYLen], cR.value, both.value[gYLen..]))
  }

  /** Parsing gives back G_Y, C_R and the ciphertext exactly when G_Y has the length of the suite and C_R fits. */
  lemma {:induction false} Message2RoundTrip(gY: Bytes, cR: ConnectionId, ciphertext2: Bytes, gYLen: nat)
    requires EncodeMessage2(gY, cR, ciphertext2).Ok?
    ensures ParseMessage2(EncodeMessage2(gY, cR, ciphertext2).value, gYLen) == Ok(Parsed2(gY, cR, ciphertext2)) <==>
            |gY| == gYLen && |ciphertext2| <= 650 && (cR.BstrId? ==> |cR.bytes| <= 1)
  {
    hide EncodeBstr, ReadBstr, ReadId, At;
    var both, buf := gY + ciphertext2, Message2Bytes(gY, cR, ciphertext2);
    AtWhole(buf);
    AtSplit(buf, 0, EncodeBstr(both), EncodeId(cR));
    ReadBstrAt(buf, 0, both);
    ReadIdAt(buf, |EncodeBstr(both)|, cR);
    if |gY| == gYLen {
      assert both[..gYLen] == gY && both[gYLen..] == ciphertext2;
    }
  }

  // ----- messages 3 and 4 -----

  /** `encode_byte_string` */
  function EncodeByteString(b: Bytes, capacity: nat): Result<Bytes> {
    if capacity < |EncodeBstr(b)| then Fail(UnexpectedResult) else Ok(EncodeBstr(b))
  }

  /** `decode_byte_string` */
  function DecodeByteString(buf: Bytes, capacity: nat): Result<Bytes> {
    var b :- ReadBstr(buf, 0);
    if capacity < |b.value| then Fail(BufferToSmall) else Ok(b.value)
  }

  /** Encoding succeeds exactly when the encoded string fits. */
  lemma {:induction false} ByteStringIff(b: Bytes, capacity: nat)
    requires |b| <= 0xFFFF
    ensures EncodeByteString(b, capacity).Ok? <==>
            |b| + (if |b| <= 23 then 1 else if |b| <= 0xFF then 2 else 3) <= capacity
  {
    hide Head;
  }

  lemma {:induction false} ByteStringRoundTrip(b: Bytes, capacity: nat, decodeCapacity: nat)
    requires EncodeByteString(b, capacity).Ok? && |b| < LIMIT
    ensures DecodeByteString(EncodeByteString(b, capacity).value, decodeCapacity) ==
            if decodeCapacity < |b| then Fail(BufferToSmall) else Ok(b)
  {
    hide EncodeBstr, ReadBstr, At;
    AtWhole(EncodeBstr(b));
    ReadBstrAt(EncodeBstr(b), 0, b);
  }
}
