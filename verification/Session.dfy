/** One request and one response between a client and a server that share a security context. */
module Session {
  import opened Common
  import opened Crypto
  import opened CoapOption
  import opened CoapBody
  import opened CoapPacket
  import opened OptionSplit
  import opened OptionMerge
  import opened OscoreOption
  import opened Nonce
  import opened Cose
  import opened SecurityContext
  import opened Protect
  import opened Unprotect
  import opened RoundTrip
  import opened Success
  import Replay = ReplayWindow

  // ----- two contexts that belong together -----

  /**
   * A client's and a server's context for the same security context: same secret and salt,
   * mirrored identifiers, consistent keys, and an ID context of the client that the server can
   * take over.
   */
  ghost predicate Matched(c: Primitives, client: State, server: State) {
    && KeysConsistent(c, client) && KeysConsistent(c, server)
    && client.cc.masterSecret == server.cc.masterSecret && client.cc.masterSalt == server.cc.masterSalt
    && client.sc.id == server.rc.id && client.rc.id == server.sc.id
    && client.rrc.kid == client.sc.id && server.rrc.kid == server.rc.id
    && client.rrc.kidContext == client.cc.idContext
    && |client.cc.idContext| <= |server.cc.idContext|
  }

  /** Matched, and whatever AAD the client can make fits the server's buffer. */
  ghost predicate Peered(c: Primitives, client: State, server: State) {
    Matched(c, client, server) && |client.rrc.aad| <= |server.rrc.aad|
  }

  /** Mirrored keys and the same IV. */
  predicate SameMaterial(client: State, server: State) {
    client.sc.key == server.rc.key && client.rc.key == server.sc.key && client.cc.commonIv == server.cc.commonIv
  }

  /** Each side can open what the other one protects now. */
  predicate Synced(client: State, server: State) {
    && client.rrc.nonce == server.rrc.nonce && client.rrc.aad == server.rrc.aad && client.rrc.piv == server.rrc.piv
    && SameMaterial(client, server)
  }

  predicate Mirrored(client: InitParams, server: InitParams) {
    && client.device == Client && server.device == Server
    && client.masterSecret == server.masterSecret && client.masterSalt == server.masterSalt
    && client.senderId == server.recipientId && client.recipientId == server.senderId
    && |client.idContext| <= |server.idContext|
  }

  /** Contexts initialised from mirrored parameters belong together. */
  lemma {:induction false} InitPeered(c: Primitives, client: InitParams, server: InitParams)
    requires Mirrored(client, server) && InitState(c, client).Ok? && InitState(c, server).Ok?
    ensures Peered(c, InitState(c, client).value, InitState(c, server).value)
  {
    hide Derive, KeysConsistent;
    InitConsistent(c, client);
    InitConsistent(c, server);
  }

  /** With equal inputs to the derivation the IVs and the mirrored keys are equal. */
  lemma {:induction false} SameKeys(c: Primitives, client: State, server: State)
    requires Matched(c, client, server) && client.cc.idContext == server.cc.idContext
    ensures SameMaterial(client, server)
  {
    hide Derive;
    var iv := server.cc.commonIv;
    assert client.cc.(commonIv := iv) == server.cc;
    DeriveIgnoresIv(c, client.cc, iv, [], CommonIv);
    DeriveIgnoresIv(c, client.cc, iv, client.sc.id, Key);
    DeriveIgnoresIv(c, client.cc, iv, client.rc.id, Key);
  }

  // ----- one request -----

  /** Preparing a request changes neither keys nor identifiers, and only shrinks the space for the AAD. */
  lemma {:induction false} PrepareKeepsPeered(c: Primitives, order: ByteOrder, client: State, server: State)
    requires Peered(c, client, server)
    ensures Peered(c, PrepareRequest(order, client).1, server)
  {
    hide Derive, SsnToPiv, MakeNonce, Aad, EncodeValue;
  }

  /** The context fields of a successfully prepared request. */
  lemma {:induction false} PreparedIs(order: ByteOrder, s: State)
    requires PrepareRequest(order, s).0.Ok?
    ensures var (value, s1) := PrepareRequest(order, s);
      && value == Ok(EncodeValue(s1.rrc.piv, s1.rrc.kid, s1.rrc.kidContext))
      && s1.rrc.piv != []
      && s1.rrc.nonce == MakeNonce(s1.rrc.kid, s1.rrc.piv, s1.cc.commonIv)
      && s1.rrc.aad == Aad(s1.rrc.kid, s1.rrc.piv) && |s1.rrc.aad| <= |s.rrc.aad|
      && s1.rrc.kid == s.rrc.kid && s1.rrc.kidContext == s.rrc.kidContext && s1.cc == s.cc
  {
    hide SsnToPiv, MakeNonce, Aad, EncodeValue;
  }

  /** The server's update for a KID context that is not longer than its own: only the AAD can fail to fit. */
  lemma {:induction false} UpdateOutcome(c: Primitives, piv: Piv, kidContext: KidContext, s: State)
    requires KeysConsistent(c, s) && |kidContext| <= |s.cc.idContext|
    ensures var (r, s1), fits := UpdateServer(c, piv, kidContext, s), |Aad(s.rrc.kid, piv)| <= |s.rrc.aad|;
      && r == (if fits then Ok(()) else Fail(UnexpectedResult))
      && KeysConsistent(c, s1) && s1.cc.idContext == kidContext
      && s1.cc.masterSecret == s.cc.masterSecret && s1.cc.masterSalt == s.cc.masterSalt
      && s1.sc.id == s.sc.id && s1.rc.id == s.rc.id && s1.rrc.kid == s.rrc.kid
      && s1.rrc.piv == piv && s1.rrc.nonce == MakeNonce(s1.rrc.kid, piv, s1.cc.commonIv)
      && s1.rrc.aad == (if fits then Aad(s1.rrc.kid, piv) else s.rrc.aad)
      && s1.window == s.window
  {
    hide Derive, Rederive, MakeNonce, Aad;
    UpdateConsistent(c, piv, kidContext, s);
    if s.cc.idContext != kidContext {
      RederiveConsistent(c, s.(rrc := s.rrc.(piv := piv, kidContext := kidContext)), kidContext);
    }
  }

  /**
   * The server's checks on a request that carries the client's identifiers: it is accepted if
   * and only if the AAD for its PIV fits, and afterwards the keys of both sides are the same.
   */
  lemma {:induction false} AcceptOutcome(c: Primitives, client: State, piv: Piv, server: State)
    requires Matched(c, client, server) && piv != []
    ensures var (number, s1) := AcceptRequest(c, Compressed(piv, client.rrc.kidContext, client.rrc.kid), server);
      var fits := |Aad(client.rrc.kid, piv)| <= |server.rrc.aad|;
      && number == (if fits then Ok(piv[0]) else Fail(UnexpectedResult))
      && Matched(c, client, s1) && SameMaterial(client, s1)
      && s1.rrc.piv == piv && s1.rrc.nonce == MakeNonce(client.rrc.kid, piv, client.cc.commonIv)
      && s1.rrc.aad == (if fits then Aad(client.rrc.kid, piv) else server.rrc.aad)
      && s1.window == server.window
  {
    hide KeysConsistent, UpdateServer, MakeNonce, Aad;
    UpdateOutcome(c, piv, client.rrc.kidContext, server);
    SameKeys(c, client, UpdateServer(c, piv, client.rrc.kidContext, server).1);
  }

  // ----- messages that carry a packet -----

  /** The bytes are a packet that survives, sealed under this key, nonce and associated data. */
  predicate Carries(
      c: Primitives, bytes: Bytes, p: Packet, value: OptionValue, key: Bytes, nonce: Bytes, aad: Bytes)
  {
    var plaintext := PlaintextBytes(p.code, InnerBody(p));
    var ciphertext := Encrypt(c, plaintext, nonce, aad, key);
    && Survives(p, value) && |p.body.options| <= MAX_OPTION_COUNT
    && |plaintext| <= MAX_PLAINTEXT_LEN && MaxEncodedLen(InnerBody(p).options) <= MAX_E_OPTIONS
    && ciphertext.Ok?
    && ReadPacket(bytes) == Ok(OuterPacket(p, value, ciphertext.value))
    && FindOscore(OuterPacket(p, value, ciphertext.value).body.options, NotOscore) == Note(value, NotOscore)
  }

  /** Whoever holds key, nonce and associated data recovers the packet. */
  lemma {:induction false} CarriedIsRestored(
      c: Primitives, bytes: Bytes, p: Packet, value: OptionValue, key: Bytes, t: State, outCapacity: nat)
    requires c.Laws() && Carries(c, bytes, p, value, key, t.rrc.nonce, t.rrc.aad) && t.rc.key == key
    ensures var outer := ReadPacket(bytes).value;
      var plaintext := OpenPayload(c, outer.body.payload, t);
      && outer.body.options != [] && plaintext.Ok?
      && Rebuild(outer, plaintext.value, outCapacity) == WritePacket(p, outCapacity)
  {
    hide Survives, OpenPayload, Rebuild, PlaintextBytes, ReadPacket, FindOscore, WritePacket, Select, WithOscore;
    hide Encrypt, MaxEncodedLen, Note;
    var plaintext := PlaintextBytes(p.code, InnerBody(p));
    var ciphertext := Encrypt(c, plaintext, t.rrc.nonce, t.rrc.aad, key).value;
    PayloadOpens(c, plaintext, t.(sc := t.sc.(key := key)), t);
    RebuildRestores(p, value, ciphertext, outCapacity);
  }

  /** What `oscore2coap` makes of a carried request, given what its checks make of it. */
  lemma {:induction false} CarriedRequest(
      c: Primitives, bytes: Bytes, p: Packet, rrc: ReqRespContext, key: Bytes, server: State, outCapacity: nat)
    requires c.Laws() && IsRequestCode(p.code)
    requires Carries(c, bytes, p, OptionValueOf(rrc), key, rrc.nonce, rrc.aad)
    ensures var (number, s1) := AcceptRequest(c, Compressed(rrc.piv, rrc.kidContext, rrc.kid), server);
      var out := UnprotectBytes(c, bytes, outCapacity, server);
      && (number.Fail? ==> out == (Fail(number.err), s1))
      && (number.Ok? && s1.rrc.nonce == rrc.nonce && s1.rrc.aad == rrc.aad && s1.rc.key == key ==>
            out == (AsCoap(WritePacket(p, outCapacity)), s1.(window := Replay.Updated(s1.window, number.value))))
  {
    hide Survives, OpenPayload, Rebuild, PlaintextBytes, ReadPacket, FindOscore, WritePacket, Select, WithOscore;
    hide Encrypt, AcceptRequest, Replay.Updated, OptionValueOf, MaxEncodedLen, Note;
    NoteOfValue(rrc);
    var (number, s1) := AcceptRequest(c, Compressed(rrc.piv, rrc.kidContext, rrc.kid), server);
    CarriedHasOptions(c, bytes, p, OptionValueOf(rrc), key, rrc.nonce, rrc.aad);
    if number.Ok? && s1.rrc.nonce == rrc.nonce && s1.rrc.aad == rrc.aad && s1.rc.key == key {
      CarriedIsRestored(c, bytes, p, OptionValueOf(rrc), key, s1, outCapacity);
    }
  }

  lemma {:induction false} CarriedHasOptions(
      c: Primitives, bytes: Bytes, p: Packet, value: OptionValue, key: Bytes, nonce: Bytes, aad: Bytes)
    requires Carries(c, bytes, p, value, key, nonce, aad)
    ensures ReadPacket(bytes).Ok? && ReadPacket(bytes).value.body.options != []
    ensures ReadPacket(bytes).value.code == if IsRequestCode(p.code) then CODE_REQ_POST else CODE_RESP_CHANGED
    ensures FindOscore(ReadPacket(bytes).value.body.options, NotOscore) == Note(value, NotOscore)
  {
    hide Survives, PlaintextBytes, ReadPacket, FindOscore, Select, WithOscore, Encrypt, MaxEncodedLen, Note;
    WithOscoreIsNotEmpty(Select(p.body.options, 0, 0, false), value);
  }

  lemma {:induction false} WithOscoreIsNotEmpty(u: seq<CoapOption>, value: OptionValue)
    ensures WithOscore(u, value) != []
  {
  }

  /** What `oscore2coap` makes of a carried response, in a context with its nonce and associated data. */
  lemma {:induction false} CarriedResponse(
      c: Primitives, bytes: Bytes, p: Packet, client: State, outCapacity: nat)
    requires c.Laws() && !IsRequestCode(p.code)
    requires Carries(c, bytes, p, [], client.rc.key, client.rrc.nonce, client.rrc.aad)
    ensures UnprotectBytes(c, bytes, outCapacity, client) == (AsCoap(WritePacket(p, outCapacity)), client)
  {
    hide Survives, OpenPayload, Rebuild, PlaintextBytes, ReadPacket, FindOscore, WritePacket, Select, WithOscore;
    hide Encrypt, AcceptRequest, MaxEncodedLen;
    CarriedHasOptions(c, bytes, p, [], client.rc.key, client.rrc.nonce, client.rrc.aad);
    CarriedIsRestored(c, bytes, p, [], client.rc.key, client, outCapacity);
  }

  // ----- protecting -----

  /** The pieces of a successful protection of a request. */
  lemma {:induction false} RequestParts(c: Primitives, order: ByteOrder, p: Packet, capacity: nat, client: State)
    requires IsRequestCode(p.code) && ProtectPacket(c, order, p, capacity, client).0.Ok?
    requires Survives(p, NextOptionValue(order, client))
    ensures var (bytes, s) := ProtectPacket(c, order, p, capacity, client);
      var plaintext := PlaintextBytes(p.code, InnerBody(p));
      && OptionValueOf(s.rrc) == NextOptionValue(order, client)
      && PrepareRequest(order, client) == (Ok(OptionValueOf(s.rrc)), s)
      && bytes == Seal(c, p, plaintext, OptionValueOf(s.rrc), s, capacity)
      && |plaintext| <= MAX_PLAINTEXT_LEN && MaxEncodedLen(InnerBody(p).options) <= MAX_E_OPTIONS
  {
    hide Survives, PrepareRequest, SetupPlaintext, PlaintextBytes, Seal, MaxEncodedLen, Select, PredictedLen;
    hide OptionValueOf, NextOptionValue;
    NextValueIs(order, client);
    SetupIsFaithful(p, NextOptionValue(order, client));
  }

  lemma {:induction false} NoteOfValue(rrc: ReqRespContext)
    ensures Note(OptionValueOf(rrc), NotOscore) == Ok(Oscore(Compressed(rrc.piv, rrc.kidContext, rrc.kid)))
  {
    hide EncodeValue, ParseValue;
    ValueRoundTrip(rrc.piv, rrc.kid, rrc.kidContext);
    assert EncodeValue(rrc.piv, rrc.kid, rrc.kidContext) != [] by { ValueNotEmpty(rrc); }
  }

  lemma {:induction false} ValueNotEmpty(rrc: ReqRespContext)
    ensures EncodeValue(rrc.piv, rrc.kid, rrc.kidContext) != []
  {
  }

  /** A protected request carries its packet. */
  lemma {:induction false} RequestIsCarried(
      c: Primitives, order: ByteOrder, buf: Bytes, capacity: nat, client: State)
    requires c.Laws() && IsRequest(buf) && ProtectBytes(c, order, buf, capacity, client).0.Ok?
    requires Survives(ReadPacket(buf).value, NextOptionValue(order, client))
    ensures var (bytes, s) := ProtectBytes(c, order, buf, capacity, client);
      && Carries(c, bytes.value, ReadPacket(buf).value, OptionValueOf(s.rrc), s.sc.key, s.rrc.nonce, s.rrc.aad)
      && PrepareRequest(order, client) == (Ok(OptionValueOf(s.rrc)), s)
  {
    hide Survives, PrepareRequest, OptionValueOf, NextOptionValue, Seal, PlaintextBytes, MaxEncodedLen;
    hide ReadPacket, FindOscore, Note, Select, ProtectPacket, Encrypt, WithOscore;
    var p := ReadPacket(buf).value;
    var s := ProtectBytes(c, order, buf, capacity, client).1;
    RequestParts(c, order, p, capacity, client);
    ReadPacketBounds(buf);
    SealedIsRead(c, p, PlaintextBytes(p.code, InnerBody(p)), OptionValueOf(s.rrc), s, capacity);
  }

  /**
   * Request round trip: the server obtains exactly the packet that the client protected,
   * afterwards both contexts agree on nonce, associated data, PIV, keys and IV, and the window
   * has noted the first byte of the PIV.
   */
  lemma {:induction false} RequestRoundTrip(
      c: Primitives, order: ByteOrder, buf: Bytes, capacity: nat, outCapacity: nat, client: State, server: State)
    requires c.Laws() && Peered(c, client, server) && IsRequest(buf)
    requires ProtectBytes(c, order, buf, capacity, client).0.Ok?
    requires Survives(ReadPacket(buf).value, NextOptionValue(order, client))
    ensures var (bytes, client1) := ProtectBytes(c, order, buf, capacity, client);
      var (out, server1) := UnprotectBytes(c, bytes.value, outCapacity, server);
      && out == AsCoap(WritePacket(ReadPacket(buf).value, outCapacity))
      && Peered(c, client1, server1) && Synced(client1, server1)
      && client1.rrc.piv != [] && server1.window == Replay.Updated(server.window, client1.rrc.piv[0])
  {
    hide Matched, Survives, PrepareRequest, OptionValueOf, NextOptionValue, AcceptRequest, MakeNonce, Aad, Carries;
    hide ReadPacket, ProtectBytes, UnprotectBytes, Replay.Updated;
    var (bytes, client1) := ProtectBytes(c, order, buf, capacity, client);
    RequestIsCarried(c, order, buf, capacity, client);
    PreparedIs(order, client);
    PrepareKeepsPeered(c, order, client, server);
    ServerTakes(c, bytes.value, ReadPacket(buf).value, client1, server, outCapacity);
  }

  /** A carried request of the current client context at a server with room for its AAD. */
  lemma {:induction false} ServerTakes(
      c: Primitives, bytes: Bytes, p: Packet, client: State, server: State, outCapacity: nat)
    requires c.Laws() && Peered(c, client, server) && IsRequestCode(p.code) && client.rrc.piv != []
    requires Carries(c, bytes, p, OptionValueOf(client.rrc), client.sc.key, client.rrc.nonce, client.rrc.aad)
    requires client.rrc.nonce == MakeNonce(client.rrc.kid, client.rrc.piv, client.cc.commonIv)
    requires client.rrc.aad == Aad(client.rrc.kid, client.rrc.piv)
    ensures var (out, server1) := UnprotectBytes(c, bytes, outCapacity, server);
      && out == AsCoap(WritePacket(p, outCapacity))
      && Peered(c, client, server1) && Synced(client, server1)
      && server1.window == Replay.Updated(server.window, client.rrc.piv[0])
  {
    hide Matched, OptionValueOf, AcceptRequest, MakeNonce, Aad, Carries, UnprotectBytes, Replay.Updated, WritePacket;
    AcceptOutcome(c, client, client.rrc.piv, server);
    CarriedRequest(c, bytes, p, client.rrc, client.sc.key, server, outCapacity);
    var s1 := AcceptRequest(c, Compressed(client.rrc.piv, client.rrc.kidContext, client.rrc.kid), server).1;
    WindowIsApart(c, client, s1, Replay.Updated(s1.window, client.rrc.piv[0]));
  }

  lemma {:induction false} WindowIsApart(c: Primitives, client: State, server: State, window: Replay.Window)
    ensures Matched(c, client, server.(window := window)) == Matched(c, client, server)
    ensures Synced(client, server.(window := window)) == Synced(client, server)
  {
    hide Derive;
  }

  /** The very same bytes a second time: the server restores the packet again and notes the number again. */
  lemma {:induction false} ReplayedRequestIsRestored(
      c: Primitives, order: ByteOrder, buf: Bytes, capacity: nat, outCapacity: nat, client: State, server: State)
    requires c.Laws() && Peered(c, client, server) && IsRequest(buf)
    requires ProtectBytes(c, order, buf, capacity, client).0.Ok?
    requires Survives(ReadPacket(buf).value, NextOptionValue(order, client))
    ensures var (bytes, client1) := ProtectBytes(c, order, buf, capacity, client);
      var server1 := UnprotectBytes(c, bytes.value, outCapacity, server).1;
      var (again, server2) := UnprotectBytes(c, bytes.value, outCapacity, server1);
      && again == AsCoap(WritePacket(ReadPacket(buf).value, outCapacity))
      && Synced(client1, server2) && client1.rrc.piv != []
      && server2.window == Replay.Updated(Replay.Updated(server.window, client1.rrc.piv[0]), client1.rrc.piv[0])
  {
    hide Matched, Survives, PrepareRequest, OptionValueOf, NextOptionValue, AcceptRequest, MakeNonce, Aad, Carries;
    hide ReadPacket, ProtectBytes, UnprotectBytes, Replay.Updated;
    var (bytes, client1) := ProtectBytes(c, order, buf, capacity, client);
    RequestRoundTrip(c, order, buf, capacity, outCapacity, client, server);
    RequestIsCarried(c, order, buf, capacity, client);
    PreparedIs(order, client);
    var server1 := UnprotectBytes(c, bytes.value, outCapacity, server).1;
    ServerTakes(c, bytes.value, ReadPacket(buf).value, client1, server1, outCapacity);
  }

  // ----- one response -----

  /** The pieces of a successful protection of a response. */
  lemma {:induction false} ResponseParts(c: Primitives, order: ByteOrder, p: Packet, capacity: nat, server: State)
    requires !IsRequestCode(p.code) && ProtectPacket(c, order, p, capacity, server).0.Ok? && Survives(p, [])
    ensures var (bytes, s) := ProtectPacket(c, order, p, capacity, server);
      var plaintext := PlaintextBytes(p.code, InnerBody(p));
      && s == server && bytes == Seal(c, p, plaintext, [], s, capacity)
      && |plaintext| <= MAX_PLAINTEXT_LEN && MaxEncodedLen(InnerBody(p).options) <= MAX_E_OPTIONS
  {
    hide Survives, SetupPlaintext, PlaintextBytes, Seal, MaxEncodedLen, Select, PredictedLen;
    SetupIsFaithful(p, []);
  }

  /** A protected response carries its packet, and leaves the context alone. */
  lemma {:induction false} ResponseIsCarried(
      c: Primitives, order: ByteOrder, buf: Bytes, capacity: nat, server: State)
    requires c.Laws() && IsResponse(buf) && Survives(ReadPacket(buf).value, [])
    requires ProtectBytes(c, order, buf, capacity, server).0.Ok?
    ensures var (bytes, s) := ProtectBytes(c, order, buf, capacity, server);
      s == server && Carries(c, bytes.value, ReadPacket(buf).value, [], s.sc.key, s.rrc.nonce, s.rrc.aad)
  {
    hide Survives, Seal, PlaintextBytes, ReadPacket, FindOscore, Note, Select, ProtectPacket, Encrypt, WithOscore, MaxEncodedLen;
    var p := ReadPacket(buf).value;
    ResponseParts(c, order, p, capacity, server);
    ReadPacketBounds(buf);
    SealedIsRead(c, p, PlaintextBytes(p.code, InnerBody(p)), [], server, capacity);
  }

  /**
   * Response round trip: a client in step with the server obtains exactly the packet that the
   * server protected, and neither context changes.
   */
  lemma {:induction false} ResponseRoundTrip(
      c: Primitives, order: ByteOrder, buf: Bytes, capacity: nat, outCapacity: nat, client: State, server: State)
    requires c.Laws() && Synced(client, server) && IsResponse(buf) && Survives(ReadPacket(buf).value, [])
    requires ProtectBytes(c, order, buf, capacity, server).0.Ok?
    ensures var (bytes, server1) := ProtectBytes(c, order, buf, capacity, server);
      && server1 == server
      && UnprotectBytes(c, bytes.value, outCapacity, client) == (AsCoap(WritePacket(ReadPacket(buf).value, outCapacity)), client)
  {
    hide Survives, ReadPacket, ProtectBytes, UnprotectBytes, Carries, WritePacket;
    var bytes := ProtectBytes(c, order, buf, capacity, server).0;
    ResponseIsCarried(c, order, buf, capacity, server);
    CarriedResponse(c, bytes.value, ReadPacket(buf).value, client, outCapacity);
  }

  /** Protecting a response leaves the context alone. */
  lemma {:induction false} ResponseKeepsContext(
      c: Primitives, order: ByteOrder, buf: Bytes, capacity: nat, server: State)
    requires IsResponse(buf)
    ensures ProtectBytes(c, order, buf, capacity, server).1 == server
  {
    hide ReadPacket, SetupPlaintext, PrepareRequest, Seal, Select, PredictedLen;
  }

  // ----- the marker byte as a number -----

  /** Sequence number 255 never meets the conditions on a little-endian machine: its PIV is the marker byte. */
  lemma {:induction false} MarkerNumberNeverSurvives(p: Packet, s: State)
    requires s.sc.seqNum == 0xFF
    ensures !Survives(p, NextOptionValue(LittleEndian, s))
  {
    hide Select, SsnToPiv, Ordered, Shortfall, Unmarked, EncodeOptions;
    PivIsShortest(0xFF);
    assert Shortest(0xFF) == [0xFF];
    var value := NextOptionValue(LittleEndian, s);
    assert value[1] == 0xFF;
    MarkerInOuter(Select(p.body.options, 0, 0, false), value, 1);
  }

  lemma {:induction false} MarkerInOuter(u: seq<CoapOption>, value: OptionValue, i: nat)
    requires i < |value| && value[i] == 0xFF
    ensures 0xFF in EncodeOptions(WithOscore(u, value))
  {
    hide InsertPosition, Rebase;
    var p, o := InsertPosition(u), CoapOption(0, OSCORE_NUMBER, value);
    var all := u[..p] + [o] + u[p..];
    RebaseKeeps(all, 0);
    assert all[p] == o;
    MarkerInOptions(WithOscore(u, value), p, i);
  }

  lemma {:induction false} MarkerInOptions(os: seq<CoapOption>, k: nat, i: nat)
    requires k < |os| && i < |os[k].value| && os[k].value[i] == 0xFF
    ensures 0xFF in EncodeOptions(os)
    decreases k
  {
    hide Header;
    if k > 0 {
      MarkerInOptions(os[1..], k - 1, i);
    } else {
      var o := os[0];
      assert EncodeOption(o)[|Header(o.delta, |o.value|)| + i] == 0xFF;
    }
  }

  /** Then the receiver's parser does not recover the OSCORE packet. */
  lemma {:induction false} MarkerNumberIsMisread(
      p: Packet, s: State, ciphertext: Bytes, capacity: nat)
    requires s.sc.seqNum == 0xFF && |p.token| <= 8 && Ordered(0, p.body.options) && ciphertext != []
    requires |Select(p.body.options, 0, 0, false)| < MAX_OPTION_COUNT
    requires WritePacket(OuterPacket(p, NextOptionValue(LittleEndian, s), ciphertext), capacity).Ok?
    ensures var outer := OuterPacket(p, NextOptionValue(LittleEndian, s), ciphertext);
      ReadPacket(WritePacket(outer, capacity).value) != Ok(outer)
  {
    hide Ordered, Select, SsnToPiv, EncodeOptions, WithOscore, ReadPacket, WritePacket, AllReadable;
    var u, value := Select(p.body.options, 0, 0, false), NextOptionValue(LittleEndian, s);
    PivIsShortest(0xFF);
    assert Shortest(0xFF) == [0xFF];
    assert value[1] == 0xFF;
    MarkerInOuter(u, value, 1);
    SelectOrdered(p.body.options, 0, 0, false);
    WithOscoreOrdered(u, value);
    OrderedChained(0, WithOscore(u, value));
    WithOscoreLen(u, value);
    PacketRoundTrip(OuterPacket(p, value, ciphertext), capacity);
  }

  lemma {:induction false} WithOscoreLen(u: seq<CoapOption>, value: OptionValue)
    ensures |WithOscore(u, value)| == |u| + 1
  {
    hide InsertPosition;
  }

  // ----- an instance -----

  function SampleClient(secret: Bytes, salt: Bytes): InitParams {
    InitParams(Client, secret, [1], [2], [], salt, AES_CCM_16_64_128, OSCORE_SHA_256)
  }

  function SampleServer(secret: Bytes, salt: Bytes): InitParams {
    InitParams(Server, secret, [2], [1], [], salt, AES_CCM_16_64_128, OSCORE_SHA_256)
  }

  lemma {:induction false} SampleInit(c: Primitives, p: InitParams)
    requires p.aeadAlg == AES_CCM_16_64_128 && p.hkdf == OSCORE_SHA_256
    requires |p.senderId| <= 7 && |p.recipientId| <= 7 && p.idContext == []
    ensures InitState(c, p).Ok?
  {
    hide Derive;
    var cc := CommonContext(p.masterSecret, p.masterSalt, p.idContext, Zeros(NONCE_LEN));
    DeriveAvailable(c, cc, [], CommonIv);
    DeriveAvailable(c, cc, p.recipientId, Key);
    DeriveAvailable(c, cc, p.senderId, Key);
  }

  lemma {:induction false} SamplePlaintextFits(code: byte)
    ensures PlaintextFits(Sample(code)) && PlaintextSize(Sample(code)) == 5
  {
    hide Select, PredictedLen, EncodeOptions, MaxEncodedLen, Ordered, Shortfall;
    SampleOptions(code);
  }

  lemma {:induction false} SampleOuterFits(code: byte, value: OptionValue, capacity: nat)
    requires |value| < 13 && capacity >= 20 + |value|
    ensures OuterFits(Sample(code), value, 5, capacity)
  {
    hide Select, WithOscore, PredictedLen, EncodeOptions, MaxEncodedLen, Ordered, Shortfall;
    SampleOptions(code);
    SampleOuter(value);
  }

  /** A fresh client with KID 1 and without ID context. */
  predicate SampleFresh(s: State) {
    s.sc.seqNum == 0 && s.rrc.kid == [1] && s.rrc.kidContext == [] && |s.rrc.aad| == MAX_AAD_LEN
  }

  lemma {:induction false} SampleNextValue(s: State)
    requires SampleFresh(s)
    ensures SsnToPiv(s.sc.seqNum, LittleEndian) == Ok([0])
    ensures NextOptionValue(LittleEndian, s) == EncodeValue([0], [1], []) == [9, 0, 1]
  {
    hide SsnToPiv;
    PivIsShortest(0);
    assert Shortest(0) == [0];
  }

  lemma {:induction false} SampleIsRequest()
    ensures IsRequest(Serialize(SAMPLE_GET)) && ReadPacket(Serialize(SAMPLE_GET)) == Ok(SAMPLE_GET)
    ensures Ordered(0, SAMPLE_GET.body.options)
  {
    hide ReadPacket, Serialize;
    SampleIsRead(1, 9);
  }

  lemma {:induction false} SampleProtected(c: Primitives, client: State, capacity: nat)
    requires c.Laws() && capacity >= 23 && SampleFresh(client)
    ensures ProtectBytes(c, LittleEndian, Serialize(SAMPLE_GET), capacity, client).0.Ok?
    ensures Survives(SAMPLE_GET, NextOptionValue(LittleEndian, client))
  {
    hide ReadPacket, Serialize, ProtectBytes, PlaintextFits, OuterFits, Ordered, Survives, NextOptionValue, SsnToPiv;
    hide PlaintextSize;
    SampleIsRequest();
    SampleNextValue(client);
    SamplePlaintextFits(1);
    SampleOuterFits(1, [9, 0, 1], capacity);
    SampleSurvives(1, NextOptionValue(LittleEndian, client));
    RequestSucceedsIff(c, LittleEndian, Serialize(SAMPLE_GET), capacity, client);
  }

  lemma {:induction false} SampleIsResponse(code: byte)
    requires !IsRequestCode(code)
    ensures IsResponse(Serialize(Sample(code))) && ReadPacket(Serialize(Sample(code))) == Ok(Sample(code))
    ensures !IsMessagingLayer(Sample(code)) && Ordered(0, Sample(code).body.options)
  {
    hide ReadPacket, Serialize;
    SampleIsRead(code, 9);
  }

  lemma {:induction false} SampleAnswered(c: Primitives, code: byte, s: State, capacity: nat)
    requires c.Laws() && !IsRequestCode(code) && capacity >= 20 && |s.rrc.aad| <= 14
    ensures ProtectBytes(c, LittleEndian, Serialize(Sample(code)), capacity, s).0.Ok?
  {
    hide ReadPacket, Serialize, ProtectBytes, PlaintextFits, OuterFits, Ordered, PlaintextSize;
    SampleIsResponse(code);
    SamplePlaintextFits(code);
    SampleOuterFits(code, [], capacity);
    ResponseSucceedsIff(c, LittleEndian, Serialize(Sample(code)), capacity, s);
  }

  lemma {:induction false} SampleContexts(c: Primitives, secret: Bytes, salt: Bytes)
    ensures var client, server := InitState(c, SampleClient(secret, salt)), InitState(c, SampleServer(secret, salt));
      client.Ok? && server.Ok? && SampleFresh(client.value) && Peered(c, client.value, server.value)
  {
    hide Derive, Peered;
    SampleInit(c, SampleClient(secret, salt));
    SampleInit(c, SampleServer(secret, salt));
    InitPeered(c, SampleClient(secret, salt), SampleServer(secret, salt));
  }

  /**
   * The premises of the round trip can be met: with any secret and salt, the first request of a
   * freshly initialised client reaches a freshly initialised server unchanged.
   */
  lemma {:induction false} FirstRequestArrives(c: Primitives, secret: Bytes, salt: Bytes, capacity: nat)
    requires c.Laws() && capacity >= 23
    ensures InitState(c, SampleClient(secret, salt)).Ok? && InitState(c, SampleServer(secret, salt)).Ok?
    ensures var client, server := InitState(c, SampleClient(secret, salt)).value, InitState(c, SampleServer(secret, salt)).value;
      var sent := ProtectBytes(c, LittleEndian, Serialize(SAMPLE_GET), capacity, client).0;
      && sent.Ok?
      && UnprotectBytes(c, sent.value, capacity, server).0 == Ok(Coap(Serialize(SAMPLE_GET)))
  {
    hide ProtectBytes, UnprotectBytes, Survives, Peered, InitState, ReadPacket, WritePacket, Serialize, NextOptionValue;
    SampleContexts(c, secret, salt);
    var client, server := InitState(c, SampleClient(secret, salt)).value, InitState(c, SampleServer(secret, salt)).value;
    SampleIsRequest();
    SampleIsRead(1, capacity);
    SampleProtected(c, client, capacity);
    RequestRoundTrip(c, LittleEndian, Serialize(SAMPLE_GET), capacity, capacity, client, server);
  }
}
