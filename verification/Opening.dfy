/** What it takes for `coap2oscore` and `oscore2coap` to output something, for all bytes and all contexts. */
module Opening {
  import opened Common
  import opened Crypto
  import opened CoapOption
  import opened CoapBody
  import opened CoapPacket
  import opened OptionSplit
  import opened OptionMerge
  import opened OscoreOption
  import opened Nonce
  import opened Cose
  import opened SecurityContext
  import opened Protect
  import opened Unprotect
  import Replay = ReplayWindow

  // ----- the header -----

  /** All of the header but the code, and the token, are the same. */
  predicate SameFraming(buf: Bytes, out: Bytes)
    requires |buf| >= 4
  {
    var end := 4 + buf[0] % 16;
    end <= |buf| && end <= |out| && out[0] == buf[0] && out[2..end] == buf[2..end]
  }

  lemma {:induction false} WrittenFraming(buf: Bytes, q: Packet, capacity: nat)
    requires ReadPacket(buf).Ok? && WritePacket(q, capacity).Ok?
    requires q == ReadPacket(buf).value.(code := q.code, body := q.body)
    ensures |buf| >= 4 && SameFraming(buf, WritePacket(q, capacity).value) && WritePacket(q, capacity).value[1] == q.code
  {
    hide ReadPacket, WritePacket, HeaderBytes;
    var p, out := ReadPacket(buf).value, WritePacket(q, capacity).value;
    ReadHeaderIs(buf);
    HeaderKept(p, q, capacity);
    var end := 4 + |p.token|;
    assert out[2..end] == out[2..4] + out[4..end];
    assert buf[2..end] == buf[2..4] + buf[4..end];
    assert buf[..4][2..4] == buf[2..4] && buf[..4][0] == buf[0];
  }

  /** An empty acknowledgement. */
  predicate EmptyAck(buf: Bytes)
    requires |buf| >= 4
  {
    buf[1] == 0 && buf[0] / 16 % 4 == 2
  }

  /**
   * Whatever `coap2oscore` outputs has the framing of the packet that went in.  An empty
   * acknowledgement passes unchanged; of everything else a request becomes a POST and a
   * response becomes 2.04.
   */
  lemma {:induction false} ProtectedFraming(c: Primitives, order: ByteOrder, buf: Bytes, capacity: nat, s: State)
    requires ProtectBytes(c, order, buf, capacity, s).0.Ok?
    ensures var out := ProtectBytes(c, order, buf, capacity, s).0.value;
      && |buf| >= 4
      && if EmptyAck(buf) then out == buf
         else SameFraming(buf, out) && out[1] == if buf[1] / 32 == 0 then 0x02 else 0x44
  {
    hide ReadPacket, SetupPlaintext, PrepareRequest, Encrypt, WritePacket, Select, PredictedLen, WithOscore;
    ReadHeaderIs(buf);
    var p := ReadPacket(buf).value;
    if !EmptyAck(buf) {
      var out := ProtectBytes(c, order, buf, capacity, s).0.value;
      var body: Body :| WritePacket(
        p.(code := if IsRequestCode(p.code) then CODE_REQ_POST else CODE_RESP_CHANGED, body := body), capacity) == Ok(out);
      WrittenFraming(
        buf, p.(code := if IsRequestCode(p.code) then CODE_REQ_POST else CODE_RESP_CHANGED, body := body), capacity);
    }
  }

  /** Empty acknowledgements are passed on without touching the context. */
  lemma {:induction false} EmptyAckPasses(c: Primitives, order: ByteOrder, buf: Bytes, capacity: nat, s: State)
    requires ReadPacket(buf).Ok? && |buf| >= 4 && EmptyAck(buf)
    ensures ProtectBytes(c, order, buf, capacity, s) == (if capacity < |buf| then Fail(Undefined) else Ok(buf), s)
  {
    hide ReadPacket;
    ReadHeaderIs(buf);
  }

  // ----- what was opened -----

  /** The ciphertext of a packet, decrypted under the keys of a context. */
  function OpenedBy(c: Primitives, buf: Bytes, s: State): Option<Bytes>
    requires ReadPacket(buf).Ok?
  {
    c.open(s.rc.key, s.rrc.nonce, EncStructure(s.rrc.aad), ReadPacket(buf).value.body.payload, 8)
  }

  /**
   * The context in which a request is opened: it has been let in for its KID, and nonce and
   * associated data are those of its PIV.
   */
  predicate LetIn(option: Compressed, s: State, s1: State) {
    && option.Compressed? && option.kid == s.rc.id && option.piv != []
    && s1.rrc.nonce == MakeNonce(s.rrc.kid, option.piv, s1.cc.commonIv)
    && s1.rrc.aad == Aad(s.rrc.kid, option.piv)
    && s1.cc.idContext == option.kidContext
  }

  lemma {:induction false} AcceptedIsLetIn(c: Primitives, option: Compressed, s: State)
    requires AcceptRequest(c, option, s).0.Ok?
    ensures var (number, s1) := AcceptRequest(c, option, s);
      LetIn(option, s, s1) && number == Ok(option.piv[0]) && s1.window == s.window
  {
    hide Derive, MakeNonce, Aad;
  }

  lemma {:induction false} AcceptKeepsWindow(c: Primitives, option: Compressed, s: State)
    ensures AcceptRequest(c, option, s).1.window == s.window
  {
    hide Derive, MakeNonce, Aad;
  }

  lemma {:induction false} OpenPayloadIs(c: Primitives, ciphertext: Bytes, s: State)
    requires OpenPayload(c, ciphertext, s).Ok?
    ensures c.open(s.rc.key, s.rrc.nonce, EncStructure(s.rrc.aad), ciphertext, 8) == Some(OpenPayload(c, ciphertext, s).value)
    ensures |s.rrc.aad| <= 14
  {
    hide EncStructure;
  }

  /** Plaintexts with more than ten options are refused. */
  lemma {:induction false} InnerOptionsBound(plaintext: Bytes)
    requires ReadPlaintext(plaintext).Ok?
    ensures |ReadPlaintext(plaintext).value.body.options| <= 10
  {
  }

  lemma {:induction false} RebuiltIs(p: Packet, plaintext: Bytes, capacity: nat)
    requires p.body.options != [] && Rebuild(p, plaintext, capacity).Ok?
    ensures plaintext != []
    ensures exists body :: Rebuild(p, plaintext, capacity) == WritePacket(p.(code := plaintext[0], body := body), capacity)
  {
    hide ReadBody, Merge, WritePacket;
    var inside := ReadPlaintext(plaintext).value;
    var options := Merge(p.body.options, inside.body.options).value;
    assert Rebuild(p, plaintext, capacity) ==
           WritePacket(p.(code := plaintext[0], body := Body(options, inside.body.payload)), capacity);
  }

  /**
   * Whatever `oscore2coap` outputs was decrypted: the AEAD opened the payload under the
   * recipient key, with the nonce and the associated data of the context, which for a request
   * are those of its own PIV.  The output has the framing of the packet and the code that stood
   * first in the plaintext.  A response leaves the context alone, a request is noted.
   */
  lemma {:induction false} OutputWasOpened(c: Primitives, buf: Bytes, capacity: nat, s: State)
    requires UnprotectBytes(c, buf, capacity, s).0.Ok? && UnprotectBytes(c, buf, capacity, s).0.value.Coap?
    ensures var (r, s1) := UnprotectBytes(c, buf, capacity, s);
      var out := r.value.bytes;
      && ReadPacket(buf).Ok? && |buf| >= 4
      && |s1.rrc.aad| <= 14
      && OpenedBy(c, buf, s1).Some? && OpenedBy(c, buf, s1).value != []
      && SameFraming(buf, out) && out[1] == OpenedBy(c, buf, s1).value[0]
      && if buf[1] / 32 != 0 then s1 == s
         else
           var found := FindOscore(ReadPacket(buf).value.body.options, NotOscore);
           && found.Ok? && found.value.Oscore? && LetIn(found.value.option, s, s1)
           && s1.window == Replay.Updated(s.window, found.value.option.piv[0])
  {
    hide ReadPacket, FindOscore, AcceptRequest, OpenPayload, Rebuild, Replay.Updated, WritePacket, LetIn, EncStructure;
    ReadHeaderIs(buf);
    var p := ReadPacket(buf).value;
    var option := FindOscore(p.body.options, NotOscore).value.option;
    var s0 := if IsRequestCode(p.code) then AcceptRequest(c, option, s).1 else s;
    if IsRequestCode(p.code) {
      AcceptedIsLetIn(c, option, s);
      LetInIgnoresWindow(option, s, s0, UnprotectBytes(c, buf, capacity, s).1.window);
    }
    OpenPayloadIs(c, p.body.payload, s0);
    var plain := OpenPayload(c, p.body.payload, s0).value;
    RebuiltIs(p, plain, capacity);
    var body :| Rebuild(p, plain, capacity) == WritePacket(p.(code := plain[0], body := body), capacity);
    WrittenFraming(buf, p.(code := plain[0], body := body), capacity);
  }

  lemma {:induction false} LetInIgnoresWindow(option: Compressed, s: State, s1: State, window: Replay.Window)
    ensures LetIn(option, s, s1.(window := window)) == LetIn(option, s, s1)
  {
    hide MakeNonce, Aad;
  }

  /** The window changes only for a request that decrypts, and then by the first byte of its PIV. */
  lemma {:induction false} WindowNotesOpened(c: Primitives, buf: Bytes, capacity: nat, s: State)
    requires UnprotectBytes(c, buf, capacity, s).1.window != s.window
    ensures var s1 := UnprotectBytes(c, buf, capacity, s).1;
      && ReadPacket(buf).Ok? && IsRequestCode(ReadPacket(buf).value.code)
      && OpenedBy(c, buf, s1).Some?
      && var found := FindOscore(ReadPacket(buf).value.body.options, NotOscore);
         && found.Ok? && found.value.Oscore? && LetIn(found.value.option, s, s1)
         && s1.window == Replay.Updated(s.window, found.value.option.piv[0])
  {
    hide ReadPacket, FindOscore, AcceptRequest, OpenPayload, Rebuild, Replay.Updated, LetIn, EncStructure;
    var p := ReadPacket(buf).value;
    var option := FindOscore(p.body.options, NotOscore).value.option;
    var s0 := AcceptRequest(c, option, s).1;
    AcceptKeepsWindow(c, option, s);
    AcceptedIsLetIn(c, option, s);
    LetInIgnoresWindow(option, s, s0, UnprotectBytes(c, buf, capacity, s).1.window);
    OpenPayloadIs(c, p.body.payload, s0);
  }

  /** A packet whose payload the AEAD refuses never yields a CoAP packet, and never enters the window. */
  lemma {:induction false} RefusedIsRejected(c: Primitives, buf: Bytes, capacity: nat, s: State)
    requires ReadPacket(buf).Ok? ==>
               forall key, nonce, aad :: c.open(key, nonce, aad, ReadPacket(buf).value.body.payload, 8).None?
    ensures var (r, s1) := UnprotectBytes(c, buf, capacity, s);
      !(r.Ok? && r.value.Coap?) && s1.window == s.window
  {
    hide UnprotectBytes, ReadPacket, EncStructure, LetIn, FindOscore, SameFraming;
    var (r, s1) := UnprotectBytes(c, buf, capacity, s);
    if r.Ok? && r.value.Coap? {
      OutputWasOpened(c, buf, capacity, s);
    }
    if s1.window != s.window {
      WindowNotesOpened(c, buf, capacity, s);
    }
  }

  // ----- packets without OSCORE -----

  lemma {:induction false} FoundIff(os: seq<CoapOption>, found: Lookup)
    ensures FindOscore(os, found) == Ok(NotOscore) <==>
            found == NotOscore && forall i :: 0 <= i < |os| ==> os[i].number != 9
  {
    hide ParseValue;
    if os != [] {
      var rest := os[1..];
      assert forall i :: 0 < i < |os| ==> os[i] == rest[i - 1];
      FoundIff(rest, found);
      if os[0].number == 9 && Note(os[0].value, found).Ok? {
        FoundIff(rest, Note(os[0].value, found).value);
      }
    }
  }

  /** A packet is passed over exactly when it can be read and has no option numbered 9; nothing changes then. */
  lemma {:induction false} PassedOverIff(c: Primitives, buf: Bytes, capacity: nat, s: State)
    ensures var (r, s1) := UnprotectBytes(c, buf, capacity, s);
      && (r == Ok(NoOscorePacket) <==>
            && ReadPacket(buf).Ok?
            && var os := ReadPacket(buf).value.body.options;
               forall i :: 0 <= i < |os| ==> os[i].number != 9)
      && (r == Ok(NoOscorePacket) ==> s1 == s)
  {
    hide ReadPacket, FindOscore, AcceptRequest, OpenPayload, Rebuild;
    if ReadPacket(buf).Ok? {
      FoundIff(ReadPacket(buf).value.body.options, NotOscore);
    }
  }
}
