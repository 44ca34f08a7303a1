/** The transcript hashes TH_2, TH_3 and TH_4, and what they bind. */
module Transcript {
  import opened Common
  import opened Crypto
  import opened Cbor

  const TH2_INPUT_SIZE := 297
  const TH_INPUT_SIZE := 682
  const ENCODING_OVERHEAD := 6

  /** A connection identifier, `struct c_x`. */
  datatype ConnectionId = IntId(value: int32) | BstrId(bytes: Bytes)

  function EncodeId(id: ConnectionId): Bytes {
    match id
    case IntId(i) => EncodeInt(i)
    case BstrId(b) => EncodeBstr(b)
  }

  function ReadId(buf: Bytes, pos: nat): (r: Result<Item<ConnectionId>>)
    ensures r.Ok? ==> pos < r.value.next <= |buf|
  {
    var i := ReadInt(buf, pos);
    if i.Ok? then Ok(Item(IntId(i.value.value), i.value.next))
    else
      var b :- ReadBstr(buf, pos);
      Ok(Item(BstrId(b.value), b.next))
  }

  lemma {:induction false} ReadIdAt(buf: Bytes, pos: nat, id: ConnectionId)
    requires id.BstrId? ==> |id.bytes| < LIMIT
    requires At(buf, pos, EncodeId(id))
    ensures ReadId(buf, pos) == Ok(Item(id, pos + |EncodeId(id)|))
  {
    hide ReadInt, ReadBstr, EncodeInt, EncodeBstr, At;
    match id
    case IntId(i) => ReadIntAt(buf, pos, i);
    case BstrId(b) => ReadBstrAt(buf, pos, b);
  }

  // ----- the hashes -----

  function Th2Input(hashMsg1: Digest, gY: Bytes, cR: ConnectionId): Bytes {
    EncodeBstr(hashMsg1) + EncodeBstr(gY) + EncodeId(cR)
  }

  /** `th2_calculate`. */
  function Th2(c: Primitives, msg1: Bytes, gY: Bytes, cR: ConnectionId): Result<Digest> {
    var input := Th2Input(c.hash(msg1), gY, cR);
    if TH2_INPUT_SIZE < |input| then Fail(UnexpectedResult) else Ok(c.hash(input))
  }

  function NextInput(th: Digest, ciphertext: Bytes): Bytes {
    EncodeBstr(th) + EncodeBstr(ciphertext)
  }

  /** `th3_calculate` and `th4_calculate`, which compute alike. */
  function NextTh(c: Primitives, th: Digest, ciphertext: Bytes): Result<Digest> {
    if TH_INPUT_SIZE < |th| + |ciphertext| + ENCODING_OVERHEAD then Fail(BufferToSmall)
    else Ok(c.hash(NextInput(th, ciphertext)))
  }

  /** The size check is enough for the encoded input. */
  lemma {:induction false} NextInputFits(th: Digest, ciphertext: Bytes)
    requires |th| + |ciphertext| + ENCODING_OVERHEAD <= TH_INPUT_SIZE
    ensures |NextInput(th, ciphertext)| <= TH_INPUT_SIZE
  {
  }

  /** TH_2 exists up to 297 bytes of input, TH_3 and TH_4 up to 644 bytes of ciphertext. */
  lemma {:induction false} HashesExistIff(
      c: Primitives, msg1: Bytes, gY: Bytes, cR: ConnectionId, th: Digest, ciphertext: Bytes)
    ensures Th2(c, msg1, gY, cR).Ok? <==> 34 + |EncodeBstr(gY)| + |EncodeId(cR)| <= 297
    ensures NextTh(c, th, ciphertext) == if |ciphertext| <= 644 then Ok(c.hash(NextInput(th, ciphertext))) else Fail(BufferToSmall)
  {
    hide Head, EncodeId;
  }

  // ----- binding -----

  datatype Transcript = Transcript(
    message1: Bytes, gY: Bytes, cR: ConnectionId, ciphertext2: Bytes, ciphertext3: Bytes)

  function Th3Of(c: Primitives, t: Transcript): Result<Digest> {
    var th2 :- Th2(c, t.message1, t.gY, t.cR);
    NextTh(c, th2, t.ciphertext2)
  }

  function Th4Of(c: Primitives, t: Transcript): Result<Digest> {
    var th3 :- Th3Of(c, t);
    NextTh(c, th3, t.ciphertext3)
  }

  /** Everything that is hashed on the way to TH_4. */
  function HashInputs(c: Primitives, t: Transcript): seq<Bytes>
    requires Th4Of(c, t).Ok?
  {
    [t.message1, Th2Input(c.hash(t.message1), t.gY, t.cR),
     NextInput(Th2(c, t.message1, t.gY, t.cR).value, t.ciphertext2), NextInput(Th3Of(c, t).value, t.ciphertext3)]
  }

  /** No two of these inputs collide. */
  ghost predicate CollisionFree(c: Primitives, inputs: seq<Bytes>) {
    forall i, j :: 0 <= i < |inputs| && 0 <= j < |inputs| && c.hash(inputs[i]) == c.hash(inputs[j]) ==> inputs[i] == inputs[j]
  }

  lemma {:induction false} NextInputInjective(th1: Digest, c1: Bytes, th2: Digest, c2: Bytes)
    requires |c1| < LIMIT && |c2| < LIMIT && NextInput(th1, c1) == NextInput(th2, c2)
    ensures th1 == th2 && c1 == c2
  {
    hide EncodeBstr;
    BstrPrefixUnique(th1, EncodeBstr(c1), th2, EncodeBstr(c2));
    assert EncodeBstr(c1) + [] == EncodeBstr(c1) && EncodeBstr(c2) + [] == EncodeBstr(c2);
    BstrPrefixUnique(c1, [], c2, []);
  }

  lemma {:induction false} IdLen(x: ConnectionId)
    ensures x.BstrId? ==> |x.bytes| < |EncodeId(x)|
  {
    hide Head;
  }

  lemma {:induction false} IdInjective(x1: ConnectionId, x2: ConnectionId)
    requires |EncodeId(x1)| < LIMIT && EncodeId(x1) == EncodeId(x2)
    ensures x1 == x2
  {
    hide EncodeId, ReadId, At;
    IdLen(x1);
    IdLen(x2);
    AtWhole(EncodeId(x1));
    ReadIdAt(EncodeId(x1), 0, x1);
    ReadIdAt(EncodeId(x1), 0, x2);
  }

  lemma {:induction false} Th2InputInjective(
      h1: Digest, g1: Bytes, x1: ConnectionId, h2: Digest, g2: Bytes, x2: ConnectionId)
    requires |Th2Input(h1, g1, x1)| < LIMIT && Th2Input(h1, g1, x1) == Th2Input(h2, g2, x2)
    ensures h1 == h2 && g1 == g2 && x1 == x2
  {
    hide EncodeBstr, EncodeId;
    assert Th2Input(h1, g1, x1) == EncodeBstr(h1) + (EncodeBstr(g1) + EncodeId(x1));
    assert Th2Input(h2, g2, x2) == EncodeBstr(h2) + (EncodeBstr(g2) + EncodeId(x2));
    BstrPrefixUnique(h1, EncodeBstr(g1) + EncodeId(x1), h2, EncodeBstr(g2) + EncodeId(x2));
    BstrPrefixUnique(g1, EncodeId(x1), g2, EncodeId(x2));
    IdInjective(x1, x2);
  }

  /** Inputs that belong to colliding hashes are equal. */
  lemma {:induction false} SameInput(c: Primitives, inputs: seq<Bytes>, i: nat, j: nat)
    requires CollisionFree(c, inputs) && i < |inputs| && j < |inputs| && c.hash(inputs[i]) == c.hash(inputs[j])
    ensures inputs[i] == inputs[j]
  {
  }

  /**
   * Equal TH_4 means equal message_1, G_Y, C_R, CIPHERTEXT_2 and CIPHERTEXT_3, unless two of
   * the strings hashed in these two runs collide: the CBOR sequences are uniquely decodable.
   */
  lemma {:induction false} TranscriptBinding(c: Primitives, s: Transcript, t: Transcript)
    requires Th4Of(c, s).Ok? && Th4Of(c, t).Ok?
    requires CollisionFree(c, HashInputs(c, s) + HashInputs(c, t))
    ensures Th4Of(c, s) == Th4Of(c, t) <==> s == t
  {
    if Th4Of(c, s) == Th4Of(c, t) {
      hide CollisionFree, NextInput, Th2Input;
      var inputs := HashInputs(c, s) + HashInputs(c, t);
      SameInput(c, inputs, 3, 7);
      NextInputInjective(Th3Of(c, s).value, s.ciphertext3, Th3Of(c, t).value, t.ciphertext3);
      SameInput(c, inputs, 2, 6);
      NextInputInjective(
        Th2(c, s.message1, s.gY, s.cR).value, s.ciphertext2, Th2(c, t.message1, t.gY, t.cR).value, t.ciphertext2);
      SameInput(c, inputs, 1, 5);
      Th2InputInjective(c.hash(s.message1), s.gY, s.cR, c.hash(t.message1), t.gY, t.cR);
      SameInput(c, inputs, 0, 4);
    }
  }
}
