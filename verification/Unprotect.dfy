/** `oscore2coap`: from an OSCORE packet back to the CoAP packet inside. */
module Unprotect {
  import opened Common
  import opened Crypto
  import opened CoapOption
  import opened CoapBody
  import opened CoapPacket
  import opened OptionMerge
  import opened OscoreOption
  import opened Cose
  import opened SecurityContext
  import opened Protect
  import Replay = ReplayWindow

  const MAX_INNER_OPTIONS := 10

  // ----- the decrypted payload -----

  datatype Inside = Inside(code: byte, body: Body)

  function ReadPlaintext(plaintext: Bytes): Result<Inside> {
    if plaintext == [] then Fail(Undefined)
    else
      var body :- ReadBody(Inner, plaintext, 1, MAX_INNER_OPTIONS);
      Ok(Inside(plaintext[0], body))
  }

  /** `o_coap_pkg_generate` and the final serialization. */
  function Rebuild(p: Packet, plaintext: Bytes, capacity: nat): Result<Bytes>
    requires p.body.options != []
  {
    var inside :- ReadPlaintext(plaintext);
    var options :- Merge(p.body.options, inside.body.options);
    WritePacket(p.(code := inside.code, body := Body(options, inside.body.payload)), capacity)
  }

  // ----- requests -----

  /**
   * The checks and the context update for a request.  The number noted for the replay window
   * is the first byte of the PIV.
   */
  function AcceptRequest(c: Primitives, option: Compressed, s: State): (Result<byte>, State) {
    if option.NoValue? then (Fail(Undefined), s)
    else if s.rc.id != option.kid then (Fail(KidRecipientIdMismatch), s)
    else if option.piv == [] then (Fail(Undefined), s)
    else
      var (r, s1) := UpdateServer(c, option.piv, option.kidContext, s);
      (if r.Fail? then Fail(r.err) else Ok(option.piv[0]), s1)
  }

  // ----- the whole transform -----

  /** The payload length minus the tag length is a 32-bit difference. */
  function OpenPayload(c: Primitives, ciphertext: Bytes, s: State): Result<Bytes> {
    var len: int := |ciphertext| - AUTH_TAG_LEN;
    if MAX_PLAINTEXT_LEN < U32(len) then Fail(BufferToSmall)
    else Decrypt(c, ciphertext, s.rrc.nonce, s.rrc.aad, s.rc.key)
  }

  function UnprotectPacket(
      c: Primitives, p: Packet, option: Compressed, capacity: nat, s: State): (Result<Bytes>, State)
    requires p.body.options != []
  {
    var request := IsRequestCode(p.code);
    var (number, s1) := if request then AcceptRequest(c, option, s) else (Ok(0), s);
    if number.Fail? then (Fail(number.err), s1) else
    var plaintext := OpenPayload(c, p.body.payload, s1);
    if plaintext.Fail? then (plaintext, s1) else
    var s2 := if request then s1.(window := Replay.Updated(s1.window, number.value)) else s1;
    (Rebuild(p, plaintext.value, capacity), s2)
  }

  /** A packet without an OSCORE option is passed over: nothing is written. */
  datatype Output = NoOscorePacket | Coap(bytes: Bytes)

  function AsCoap(r: Result<Bytes>): Result<Output> {
    if r.Fail? then Fail(r.err) else Ok(Coap(r.value))
  }

  /** The result of `oscore2coap` and the context it leaves. */
  function UnprotectBytes(c: Primitives, buf: Bytes, capacity: nat, s: State): (Result<Output>, State) {
    var p := ReadPacket(buf);
    if p.Fail? then (Fail(p.err), s) else
    var found := FindOscore(p.value.body.options, NotOscore);
    if found.Fail? then (Fail(found.err), s)
    else if found.value == NotOscore then (Ok(NoOscorePacket), s)
    else
      var (r, s1) := UnprotectPacket(c, p.value, found.value.option, capacity, s);
      (AsCoap(r), s1)
  }

  // ----- the imperative form -----

  /** The request half of `oscore2coap` before decryption. */
  method AcceptRequestContext(c: Primitives, options: seq<CoapOption>, option: Compressed, ctx: Context)
    returns (r: Result<byte>)
    requires ctx.Valid()
    modifies ctx
    ensures ctx.Valid() && (r, ctx.Contents()) == AcceptRequest(c, option, old(ctx.Contents()))
  {
    hide UpdateServer;
    if option.NoValue? {
      return Fail(Undefined);
    }
    if ctx.rc.id != option.kid {
      return Fail(KidRecipientIdMismatch);
    }
    if option.piv == [] {
      return Fail(Undefined);
    }
    var checked := Replay.ReplayCheck(option.piv[0], ctx.window);
    assert checked.Ok?;
    var _ :- ctx.ContextUpdateServer(c, options, option.piv, option.kidContext);
    return Ok(option.piv[0]);
  }

  method RebuildPacket(p: Packet, plaintext: Bytes, capacity: nat) returns (r: Result<Bytes>)
    requires p.body.options != []
    ensures r == Rebuild(p, plaintext, capacity)
  {
    hide ReadBody, Merge, WritePacket;
    if plaintext == [] {
      return Fail(Undefined);
    }
    var body :- ParseBody(Inner, plaintext, 1, MAX_INNER_OPTIONS);
    var options :- OptionsFromOscoreReorder(p.body.options, body.options);
    var out := new byte[capacity];
    var len :- Coap2Buf(p.(code := plaintext[0], body := Body(options, body.payload)), out);
    return Ok(out[..len]);
  }

  /** `oscore2coap`. */
  method Oscore2Coap(c: Primitives, buf: Bytes, capacity: nat, ctx: Context) returns (r: Result<Output>)
    requires ctx.Valid()
    modifies ctx, ctx.window
    ensures ctx.Valid() && (r, ctx.Contents()) == UnprotectBytes(c, buf, capacity, old(ctx.Contents()))
  {
    hide ReadPacket, FindOscore, AcceptRequest, Decrypt, Rebuild, Replay.Updated;
    var p :- Buf2Coap(buf);
    var found :- OscoreOptionParser(p.body.options);
    if found == NotOscore {
      return Ok(NoOscorePacket);
    }
    var number: byte := 0;
    if IsRequestCode(p.code) {
      number :- AcceptRequestContext(c, p.body.options, found.option, ctx);
    }
    var len: int := |p.body.payload| - AUTH_TAG_LEN;
    var _ :- CheckSize(MAX_PLAINTEXT_LEN, U32(len));
    var plaintext :- Decrypt(c, p.body.payload, ctx.rrc.nonce, ctx.rrc.aad, ctx.rc.key);
    if IsRequestCode(p.code) {
      Replay.UpdateReplayWindow(number, ctx.window);
    }
    var bytes :- RebuildPacket(p, plaintext, capacity);
    return Ok(Coap(bytes));
  }
}
