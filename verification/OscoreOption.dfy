/** The value of the OSCORE option (section 6.1 of RFC 8613): generation and parsing. */
module OscoreOption {
  import opened Common
  import opened CoapOption
  import opened OptionSplit
  import opened OptionMerge

  const MAX_PIV_LEN := 5
  const MAX_KID_CONTEXT_LEN := 8
  const MAX_KID_LEN := 7
  const OSCORE_OPT_VALUE_LEN := 22

  type Piv = b: Bytes | |b| <= MAX_PIV_LEN witness []
  type KidContext = b: Bytes | |b| <= MAX_KID_CONTEXT_LEN witness []
  type Kid = b: Bytes | |b| <= MAX_KID_LEN witness []

  /** `get_oscore_opt_val_len`, in 8-bit arithmetic. */
  function OptValLen(piv: Bytes, kid: Bytes, kidContext: Bytes): byte {
    var l := U8(|piv| + |kidContext| + |kid|);
    var flagged := if l != 0 then U8(l + 1) else l;
    if kidContext != [] then U8(flagged + 1) else flagged
  }

  function ContextField(kidContext: Bytes): Bytes
    requires |kidContext| < 0x100
  {
    if kidContext == [] then [] else [|kidContext|] + kidContext
  }

  function Flags(piv: Piv, kidContext: Bytes): byte {
    |piv| + 8 + if kidContext == [] then 0 else 16
  }

  function EncodeValue(piv: Piv, kid: Bytes, kidContext: Bytes): Bytes
    requires |kidContext| < 0x100
  {
    [Flags(piv, kidContext)] + piv + ContextField(kidContext) + kid
  }

  /** Appends a field behind the flag byte and the fields written so far. */
  method PutField(value: array<byte>, pos: nat, field: Bytes)
    requires 1 <= pos && pos + |field| <= value.Length
    modifies value
    ensures value[0] == old(value[0])
    ensures value[1..pos + |field|] == old(value[1..pos]) + field
  {
    CopyInto(value, pos, field);
    assert value[..pos][1..] == value[1..pos] && value[..pos][0] == value[0];
    assert value[1..pos + |field|] == value[1..pos] + value[pos..pos + |field|];
  }

  /**
   * `oscore_option_generate` into a buffer of the computed length.  Requests always carry a
   * PIV of at least one byte; the function is not called for responses.
   */
  method OscoreOptionGenerate(piv: Piv, kid: Kid, kidContext: KidContext, value: array<byte>)
    requires piv != [] && value.Length == OptValLen(piv, kid, kidContext)
    modifies value
    ensures value[..] == EncodeValue(piv, kid, kidContext)
  {
    ValueLen(piv, kid, kidContext);
    ContextFieldIs(kidContext);
    hide OptValLen, EncodeValue, ContextField;
    forall i | 0 <= i < value.Length {
      value[i] := 0;
    }
    value[0] := value[0] + |piv|;
    PutField(value, 1, piv);
    var pos := 1 + |piv|;
    assert value[1..pos] == piv;
    if kidContext != [] {
      value[0] := value[0] + 16;
      PutField(value, pos, [|kidContext|] + kidContext);
      pos := pos + 1 + |kidContext|;
    } else {
      assert piv + [] == piv;
    }
    SetKidFlag(value, pos);
    PutField(value, pos, kid);
    assert value[1..] == value[1..pos + |kid|];
    EncodeValueIs(piv, kid, kidContext, value[..]);
  }

  method SetKidFlag(value: array<byte>, pos: nat)
    requires 1 <= pos <= value.Length && value[0] < 0xF8
    modifies value
    ensures value[0] == old(value[0]) + 8 && value[1..pos] == old(value[1..pos])
  {
    value[0] := value[0] + 8;
  }

  lemma {:induction false} ContextFieldIs(kidContext: KidContext)
    ensures ContextField(kidContext) == if kidContext == [] then [] else [|kidContext|] + kidContext
  {
  }

  lemma {:induction false} ValueLen(piv: Piv, kid: Kid, kidContext: KidContext)
    requires piv != []
    ensures OptValLen(piv, kid, kidContext) == 1 + |piv| + |ContextField(kidContext)| + |kid|
  {
  }

  lemma {:induction false} EncodeValueIs(piv: Piv, kid: Bytes, kidContext: KidContext, s: Bytes)
    requires s != [] && s[0] == Flags(piv, kidContext)
    requires s[1..] == piv + ContextField(kidContext) + kid
    ensures s == EncodeValue(piv, kid, kidContext)
  {
    assert s == [s[0]] + s[1..];
  }

  /** `NoValue`: an empty option value, which leaves the fields of the C struct unset. */
  datatype Compressed = NoValue | Compressed(piv: Piv, kidContext: Bytes, kid: Bytes)

  /** One non-empty option value; reads behind the value are undefined here. */
  function ParseValue(v: Bytes): Result<Compressed>
    requires v != []
  {
    var n, k, h := v[0] % 8, v[0] / 8 % 2, v[0] / 16 % 2;
    if n > MAX_PIV_LEN then Fail(InvalidPiv) else
    var c := 1 + n;
    if c > |v| || (h == 1 && c == |v|) then Fail(Undefined) else
    var next := if h == 0 then c else c + 1 + v[c];
    if next > |v| then Fail(Undefined)
    else Ok(Compressed(v[1..c], if h == 0 then [] else v[c + 1..next], if k == 0 then [] else v[next..]))
  }

  datatype Lookup = NotOscore | Oscore(option: Compressed)

  function Note(value: Bytes, found: Lookup): Result<Lookup> {
    if value == [] then Ok(if found == NotOscore then Oscore(NoValue) else found)
    else
      var c :- ParseValue(value);
      Ok(Oscore(c))
  }

  /** All options are inspected; the last OSCORE option wins. */
  function FindOscore(os: seq<CoapOption>, found: Lookup): (r: Result<Lookup>)
    ensures r.Ok? && r.value != found ==> os != []
  {
    if os == [] then Ok(found)
    else if os[0].number != OSCORE_NUMBER then FindOscore(os[1..], found)
    else
      var f :- Note(os[0].value, found);
      FindOscore(os[1..], f)
  }

  /** `oscore_option_parser`. */
  method OscoreOptionParser(os: seq<CoapOption>) returns (r: Result<Lookup>)
    ensures r == FindOscore(os, NotOscore)
  {
    hide Note;
    var found := NotOscore;
    assert os[0..] == os;
    for i := 0 to |os|
      invariant FindOscore(os[i..], found) == FindOscore(os, NotOscore)
    {
      assert os[i..][1..] == os[i + 1..];
      if os[i].number == OSCORE_NUMBER {
        found :- Note(os[i].value, found);
      }
    }
    return Ok(found);
  }

  // ----- the two are inverse -----

  lemma {:induction false} EncodedLen(piv: Piv, kid: Kid, kidContext: KidContext)
    requires piv != []
    ensures |EncodeValue(piv, kid, kidContext)| == OptValLen(piv, kid, kidContext) <= OSCORE_OPT_VALUE_LEN
  {
  }

  lemma {:induction false} FlagBits(n: nat, h: nat)
    requires n <= MAX_PIV_LEN && h <= 1
    ensures var b := n + 8 + 16 * h; b % 8 == n && b / 8 % 2 == 1 && b / 16 % 2 == h
  {
  }

  /** The parser recovers PIV, KID context and KID, whatever their lengths. */
  lemma {:induction false} ValueRoundTrip(piv: Piv, kid: Bytes, kidContext: Bytes)
    requires |kidContext| < 0x100
    ensures ParseValue(EncodeValue(piv, kid, kidContext)) == Ok(Compressed(piv, kidContext, kid))
  {
    var v := EncodeValue(piv, kid, kidContext);
    var c, next := 1 + |piv|, 1 + |piv| + |ContextField(kidContext)|;
    FlagBits(|piv|, if kidContext == [] then 0 else 1);
    assert v[1..c] == piv;
    assert v[c..next] == ContextField(kidContext);
    assert v[next..] == kid;
    if kidContext != [] {
      assert v[c] == v[c..next][0];
      assert v[c + 1..next] == v[c..next][1..];
    }
  }

  lemma {:induction false} FindNothing(os: seq<CoapOption>, found: Lookup)
    requires forall i :: 0 <= i < |os| ==> os[i].number != OSCORE_NUMBER
    ensures FindOscore(os, found) == Ok(found)
  {
    if os != [] {
      FindNothing(os[1..], found);
    }
  }

  /** A single OSCORE option is found wherever it stands. */
  lemma {:induction false} FindSingle(os: seq<CoapOption>, p: nat)
    requires p < |os| && os[p].number == OSCORE_NUMBER
    requires forall i :: 0 <= i < |os| && i != p ==> os[i].number != OSCORE_NUMBER
    ensures FindOscore(os, NotOscore) == Note(os[p].value, NotOscore)
  {
    if p > 0 {
      FindSingle(os[1..], p - 1);
    } else {
      var f := Note(os[0].value, NotOscore);
      if f.Ok? {
        FindNothing(os[1..], f.value);
      }
    }
  }

  lemma {:induction false} RebaseKeeps(os: seq<CoapOption>, last: byte)
    ensures forall i :: 0 <= i < |os| ==> Rebase(os, last)[i].number == os[i].number && Rebase(os, last)[i].value == os[i].value
  {
    if os != [] {
      RebaseKeeps(os[1..], os[0].number);
    }
  }

  /** The inserted option is the one that the receiver's parser finds. */
  lemma {:induction false} FindInserted(u: seq<CoapOption>, value: OptionValue)
    requires forall i :: 0 <= i < |u| ==> u[i].number != OSCORE_NUMBER
    ensures FindOscore(WithOscore(u, value), NotOscore) == Note(value, NotOscore)
  {
    hide InsertPosition, Rebase, Note;
    var p := InsertPosition(u);
    RebaseKeeps(u[..p] + [CoapOption(0, OSCORE_NUMBER, value)] + u[p..], 0);
    FindSingle(WithOscore(u, value), p);
  }
}
