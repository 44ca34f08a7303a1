/** `oscore2coap` undoes `coap2oscore`: requests and responses between two matched contexts. */
module RoundTrip {
  import opened Common
  import opened Crypto
  import opened CoapOption
  import opened CoapBody
  import opened CoapPacket
  import opened OptionSplit
  import opened OptionMerge
  import opened SplitMerge
  import opened OscoreOption
  import opened Cose
  import opened SecurityContext
  import opened Protect
  import opened Unprotect
  import Replay = ReplayWindow

  // ----- the outer options -----

  /** The option numbers ascend from `last` on. */
  ghost predicate Climbs(os: seq<CoapOption>, last: byte) {
    && (forall i :: 0 <= i < |os| ==> last <= os[i].number)
    && (forall i, j :: 0 <= i < j < |os| ==> os[i].number <= os[j].number)
  }

  lemma {:induction false} OrderedClimbs(os: seq<CoapOption>, last: byte)
    requires Ordered(last, os)
    ensures Climbs(os, last)
    decreases |os|
  {
    if os != [] {
      var rest := os[1..];
      OrderedClimbs(rest, os[0].number);
      assert forall i :: 0 < i < |os| ==> os[i] == rest[i - 1];
    }
  }

  lemma {:induction false} RebaseOrdered(os: seq<CoapOption>, last: byte)
    requires Climbs(os, last)
    ensures Ordered(last, Rebase(os, last))
    decreases |os|
  {
    if os != [] {
      RebaseOrdered(os[1..], os[0].number);
    }
  }

  lemma {:induction false} InsertPositionSplits(u: seq<CoapOption>)
    requires Climbs(u, 0)
    ensures forall i :: 0 <= i < InsertPosition(u) ==> u[i].number <= OSCORE_NUMBER
    ensures forall i :: InsertPosition(u) <= i < |u| ==> u[i].number > OSCORE_NUMBER
  {
    if u != [] && u[0].number <= OSCORE_NUMBER {
      var rest := u[1..];
      InsertPositionSplits(rest);
      assert forall i :: 0 < i < |u| ==> u[i] == rest[i - 1];
    }
  }

  /** The OSCORE option is inserted where it keeps the numbers in order. */
  lemma {:induction false} WithOscoreOrdered(u: seq<CoapOption>, value: OptionValue)
    requires Ordered(0, u)
    ensures Ordered(0, WithOscore(u, value))
  {
    hide Ordered, Rebase, InsertPosition;
    OrderedClimbs(u, 0);
    InsertPositionSplits(u);
    var p := InsertPosition(u);
    RebaseOrdered(u[..p] + [CoapOption(0, OSCORE_NUMBER, value)] + u[p..], 0);
  }

  predicate ShortValues(os: seq<CoapOption>) {
    forall i :: 0 <= i < |os| ==> |os[i].value| < 13
  }

  lemma {:induction false} WithOscoreValues(u: seq<CoapOption>, value: OptionValue)
    ensures ShortValues(WithOscore(u, value)) <==> ShortValues(u) && |value| < 13
  {
    hide InsertPosition, Rebase;
    var p, o := InsertPosition(u), CoapOption(0, OSCORE_NUMBER, value);
    var all := u[..p] + [o] + u[p..];
    RebaseKeeps(all, 0);
    assert all[p] == o;
    assert forall i :: 0 <= i < |u| ==> u[i] == all[if i < p then i else i + 1];
  }

  // ----- packets that survive -----

  /**
   * The packets whose protection can be undone, given the value of their OSCORE option.  Each
   * line is the exact condition of one stage: MergeUndoesSplitIff, PacketRoundTrip,
   * BodyRoundTrip and PlaintextFaithfulIff.
   */
  predicate Survives(p: Packet, value: OptionValue) {
    var os, u := p.body.options, Select(p.body.options, 0, 0, false);
    && Ordered(0, os) && NoOscore(os) && NoHigh(os)
    && ShortValues(u) && |value| < 13 && 0xFF !in EncodeOptions(WithOscore(u, value))
    && Unmarked(InnerBody(p))
    && Shortfall(os, 0) == 0
  }

  lemma {:induction false} SelectNoOscore(os: seq<CoapOption>, number: byte, last: byte, encrypted: bool)
    requires Ordered(number, os) && NoOscore(os)
    ensures NoOscore(Select(os, number, last, encrypted))
    decreases |os|
  {
    if os != [] {
      SelectNoOscore(os[1..], os[0].number, if IsClassE(os[0].number) == encrypted then os[0].number else last, encrypted);
    }
  }

  lemma {:induction false} ReadPacketBounds(buf: Bytes)
    requires ReadPacket(buf).Ok?
    ensures |ReadPacket(buf).value.token| <= 8 && |ReadPacket(buf).value.body.options| <= 20
  {
  }

  lemma {:induction false} AllReadableIff(reader: Reader, os: seq<CoapOption>)
    requires Ordered(0, os)
    ensures AllReadable(reader, os) <==> (reader == Outer ==> ShortValues(os))
  {
    hide Ordered;
    OrderedChained(0, os);
  }

  /** The receiver's parser recovers the outer packet. */
  lemma {:induction false} OuterRoundTrip(p: Packet, value: OptionValue, ciphertext: Bytes, capacity: nat)
    requires Survives(p, value) && |p.token| <= 8 && ciphertext != []
    requires |Select(p.body.options, 0, 0, false)| < MAX_OPTION_COUNT
    requires WritePacket(OuterPacket(p, value, ciphertext), capacity).Ok?
    ensures ReadPacket(WritePacket(OuterPacket(p, value, ciphertext), capacity).value) == Ok(OuterPacket(p, value, ciphertext))
  {
    hide Ordered, Select, EncodeOptions, Rebase, InsertPosition, Shortfall, ReadPacket, WritePacket, AllReadable;
    var u := Select(p.body.options, 0, 0, false);
    SelectOrdered(p.body.options, 0, 0, false);
    WithOscoreOrdered(u, value);
    WithOscoreValues(u, value);
    OrderedChained(0, WithOscore(u, value));
    AllReadableIff(Outer, WithOscore(u, value));
    PacketRoundTrip(OuterPacket(p, value, ciphertext), capacity);
  }

  lemma {:induction false} PlaintextParts(code: byte, body: Body)
    ensures var buf := PlaintextBytes(code, body);
      && buf != [] && buf[0] == code
      && At(buf, 1, EncodeOptions(body.options))
      && buf[1 + |EncodeOptions(body.options)|..] == PayloadBytes(body.payload)
  {
    hide EncodeOptions, PayloadBytes;
    var e := EncodeOptions(body.options);
    assert PlaintextBytes(code, body)[1..] == e + PayloadBytes(body.payload);
  }

  /** The decrypted payload reads back as the code, the E options and the payload. */
  lemma {:induction false} InsideRoundTrip(p: Packet)
    requires Ordered(0, p.body.options) && Unmarked(InnerBody(p))
    requires MaxEncodedLen(InnerBody(p).options) <= MAX_E_OPTIONS
    ensures ReadPlaintext(PlaintextBytes(p.code, InnerBody(p))) == Ok(Inside(p.code, InnerBody(p)))
  {
    hide Ordered, Select, EncodeOptions, MaxEncodedLen, PayloadBytes, ReadBody, PlaintextBytes, AllReadable, Unmarked, At;
    var body := InnerBody(p);
    SelectOrdered(p.body.options, 0, 0, true);
    OrderedChained(0, body.options);
    AllReadableIff(Inner, body.options);
    FewOptions(body.options);
    PlaintextParts(p.code, body);
    BodyRoundTrip(Inner, PlaintextBytes(p.code, body), 1, body, MAX_INNER_OPTIONS);
  }

  /** Rebuilding from the outer packet and the plaintext writes the original packet. */
  lemma {:induction false} RebuildRestores(p: Packet, value: OptionValue, ciphertext: Bytes, capacity: nat)
    requires Survives(p, value) && |p.body.options| <= MAX_OPTION_COUNT
    requires MaxEncodedLen(InnerBody(p).options) <= MAX_E_OPTIONS
    ensures OuterPacket(p, value, ciphertext).body.options != []
    ensures Rebuild(OuterPacket(p, value, ciphertext), PlaintextBytes(p.code, InnerBody(p)), capacity) == WritePacket(p, capacity)
  {
    hide Ordered, Select, WithOscore, Merge, ReadPlaintext, WritePacket, Shortfall, EncodeOptions;
    hide MaxEncodedLen, PlaintextBytes;
    InsideRoundTrip(p);
    MergeUndoesSplitIff(p.body.options, value);
  }

  /** A protected packet, as its receiver's parsers see it. */
  lemma {:induction false} SealedIsRead(
      c: Primitives, p: Packet, plaintext: Bytes, value: OptionValue, s: State, capacity: nat)
    requires c.Laws() && Survives(p, value) && |p.token| <= 8
    requires Seal(c, p, plaintext, value, s, capacity).Ok?
    ensures var ciphertext := Encrypt(c, plaintext, s.rrc.nonce, s.rrc.aad, s.sc.key);
      && ciphertext.Ok?
      && ReadPacket(Seal(c, p, plaintext, value, s, capacity).value) == Ok(OuterPacket(p, value, ciphertext.value))
      && FindOscore(OuterPacket(p, value, ciphertext.value).body.options, NotOscore) == Note(value, NotOscore)
  {
    hide Ordered, Select, WithOscore, EncodeOptions, ReadPacket, WritePacket, FindOscore, Note, Encrypt, Survives;
    var ciphertext := Encrypt(c, plaintext, s.rrc.nonce, s.rrc.aad, s.sc.key);
    DecryptEncrypt(c, plaintext, s.rrc.nonce, s.rrc.aad, s.sc.key);
    OuterRoundTrip(p, value, ciphertext.value, capacity);
    SurvivorsHaveNoOscore(p, value);
    FindInserted(Select(p.body.options, 0, 0, false), value);
  }

  lemma {:induction false} SurvivorsHaveNoOscore(p: Packet, value: OptionValue)
    requires Survives(p, value)
    ensures NoOscore(Select(p.body.options, 0, 0, false))
  {
    hide Select;
    SelectNoOscore(p.body.options, 0, 0, false);
  }

  /** The receiver opens the payload when it holds the sender's nonce, associated data and key. */
  lemma {:induction false} PayloadOpens(c: Primitives, plaintext: Bytes, s: State, t: State)
    requires c.Laws() && |plaintext| <= MAX_PLAINTEXT_LEN
    requires Encrypt(c, plaintext, s.rrc.nonce, s.rrc.aad, s.sc.key).Ok?
    requires s.rrc.nonce == t.rrc.nonce && s.rrc.aad == t.rrc.aad && s.sc.key == t.rc.key
    ensures OpenPayload(c, Encrypt(c, plaintext, s.rrc.nonce, s.rrc.aad, s.sc.key).value, t) == Ok(plaintext)
  {
    hide Encrypt, Decrypt;
    DecryptEncrypt(c, plaintext, s.rrc.nonce, s.rrc.aad, s.sc.key);
  }

  /** What is known of a plaintext that passed the checks, for a packet that survives. */
  lemma {:induction false} SetupIsFaithful(p: Packet, value: OptionValue)
    requires Survives(p, value)
    requires SetupPlaintext(p.code, InnerBody(p), PredictedLen(p.body.options, 0)).Ok?
    ensures SetupPlaintext(p.code, InnerBody(p), PredictedLen(p.body.options, 0)) == Ok(PlaintextBytes(p.code, InnerBody(p)))
    ensures |PlaintextBytes(p.code, InnerBody(p))| <= MAX_PLAINTEXT_LEN
    ensures MaxEncodedLen(InnerBody(p).options) <= MAX_E_OPTIONS
  {
    hide Ordered, Select, EncodeOptions, MaxEncodedLen, Shortfall, PredictedLen, PlaintextBytes, Unmarked, SetupPlaintext;
    PlaintextOutcome(p.code, p.body.options, p.body.payload);
  }

  // ----- an instance -----

  /** A packet with a one-byte path and a payload. */
  function Sample(code: byte): Packet {
    Packet(1, 0, code, 7, [0x4A], Body([CoapOption(11, 11, [0x74])], [0x31]))
  }

  const SAMPLE_GET := Sample(1)

  lemma {:induction false} SampleOptions(code: byte)
    ensures var os := Sample(code).body.options;
      && Select(os, 0, 0, true) == os && Select(os, 0, 0, false) == []
      && Ordered(0, os) && Shortfall(os, 0) == 0 && PredictedLen(os, 0) == 2
      && EncodeOptions(os) == [0xB1, 0x74] && MaxEncodedLen(os) == 6
  {
    assert Sample(code).body.options[1..] == [];
    assert EncodeOption(Sample(code).body.options[0]) == [0xB1, 0x74];
  }

  lemma {:induction false} SampleOuter(value: OptionValue)
    requires |value| < 13
    ensures WithOscore([], value) == [CoapOption(9, 9, value)]
    ensures EncodeOptions(WithOscore([], value)) == [9 * 16 + |value|] + value
    ensures MaxEncodedLen(WithOscore([], value)) == 5 + |value|
  {
    assert WithOscore([], value) == [CoapOption(9, 9, value)];
    assert EncodeOption(CoapOption(9, 9, value)) == [9 * 16 + |value|] + value;
  }

  /** The conditions can be met: they hold of the sample, as the first request of a client with KID 1 and as a response. */
  lemma {:induction false} SampleSurvives(code: byte, value: OptionValue)
    requires value == [] || value == EncodeValue([0], [1], [])
    ensures Survives(Sample(code), value)
  {
    hide Select, Ordered, Shortfall, EncodeOptions, WithOscore;
    assert EncodeValue([0], [1], []) == [9, 0, 1];
    SampleOptions(code);
    SampleOuter(value);
  }

  /** Reading the bytes of the sample gives the sample. */
  lemma {:induction false} SampleIsRead(code: byte, capacity: nat)
    requires capacity >= 9
    ensures WritePacket(Sample(code), capacity) == Ok(Serialize(Sample(code)))
    ensures ReadPacket(Serialize(Sample(code))) == Ok(Sample(code))
  {
    hide ReadPacket, EncodeOptions, MaxEncodedLen, Select, Ordered, Shortfall, PredictedLen;
    SampleOptions(code);
    OrderedChained(0, Sample(code).body.options);
    PacketRoundTrip(Sample(code), capacity);
  }
}
