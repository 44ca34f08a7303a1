/**
 * CoAP options and their byte strings: one writer, and two readers that differ in how they
 * undo the writer's extended length.
 */
module CoapOption {
  import opened Common

  const MAX_OPTION_COUNT := 20

  type OptionValue = v: Bytes | |v| < 0x100 witness []

  /** The length field of the C struct is `|value|`. */
  datatype CoapOption = CoapOption(delta: uint16, number: byte, value: OptionValue)

  // ----- the writer -----

  function Nibble(n: uint16): (r: byte)
    ensures r < 15
  {
    if n < 13 then n else if n < 243 then 13 else 14
  }

  function Extension(n: uint16): (r: Bytes)
    ensures |r| <= 2
  {
    if n < 13 then []
    else if n < 243 then [n + 13]
    else [U16(n + 269) / 0x100, U16(n + 269) % 0x100]
  }

  function Header(delta: uint16, len: byte): (r: Bytes)
    ensures 1 <= |r| <= 5 && |r| == 1 + |Extension(delta)| + |Extension(len)|
  {
    [Nibble(delta) * 16 + Nibble(len)] + Extension(delta) + Extension(len)
  }

  function EncodeOption(o: CoapOption): (r: Bytes)
    ensures |o.value| < |r| <= |o.value| + 5
  {
    Header(o.delta, |o.value|) + o.value
  }

  function EncodeOptions(os: seq<CoapOption>): Bytes {
    if os == [] then [] else EncodeOption(os[0]) + EncodeOptions(os[1..])
  }

  /** The size callers reserve: five header bytes an option. */
  function MaxEncodedLen(os: seq<CoapOption>): (n: nat)
    ensures |EncodeOptions(os)| <= n
  {
    if os == [] then 0 else 5 + |os[0].value| + MaxEncodedLen(os[1..])
  }

  /** `memcpy` to a position of a buffer. */
  method CopyInto(out: array<byte>, pos: nat, src: Bytes)
    requires pos + |src| <= out.Length
    modifies out
    ensures out[..pos] == old(out[..pos]) && out[pos..pos + |src|] == src
  {
    for i := 0 to |src|
      invariant out[..pos] == old(out[..pos])
      invariant forall k :: 0 <= k < i ==> out[pos + k] == src[k]
    {
      out[pos + i] := src[i];
    }
  }

  /** Appends to the first `pos` bytes of a buffer. */
  method Append(src: Bytes, out: array<byte>, pos: nat)
    requires pos + |src| <= out.Length
    modifies out
    ensures out[..pos + |src|] == old(out[..pos]) + src
  {
    CopyInto(out, pos, src);
    assert out[..pos + |src|] == out[..pos] + out[pos..pos + |src|];
  }

  /** The delta half of a header: the high nibble and up to two extension bytes. */
  method WriteDelta(delta: uint16, out: array<byte>, pos: nat) returns (extra: nat)
    requires pos + 3 <= out.Length
    modifies out
    ensures extra == |Extension(delta)| && out[..pos] == old(out[..pos])
    ensures out[pos] == Nibble(delta) * 16 && out[pos + 1..pos + 1 + extra] == Extension(delta)
  {
    extra := 0;
    if delta >= 13 && delta < 243 {
      extra := 1;
    } else if delta >= 243 {
      extra := 2;
    }
    if extra == 0 {
      out[pos] := delta * 16;
    } else if extra == 1 {
      out[pos] := 13 * 16;
      out[pos + 1] := delta + 13;
    } else {
      out[pos] := 14 * 16;
      var tempDelta := U16(delta + 269);
      out[pos + 1] := tempDelta / 0x100;
      out[pos + 2] := tempDelta % 0x100;
    }
  }

  /** The length half, behind `deltaExtra` extension bytes. */
  method WriteLen(len: byte, out: array<byte>, pos: nat, deltaExtra: nat) returns (extra: nat)
    requires deltaExtra <= 2 && pos + 5 <= out.Length && out[pos] % 16 == 0
    modifies out
    ensures extra == |Extension(len)| && out[..pos] == old(out[..pos])
    ensures out[pos] == old(out[pos]) + Nibble(len)
    ensures out[pos + 1..pos + 1 + deltaExtra] == old(out[pos + 1..pos + 1 + deltaExtra])
    ensures out[pos + 1 + deltaExtra..pos + 1 + deltaExtra + extra] == Extension(len)
  {
    extra := 0;
    if len >= 13 && len < 243 {
      extra := 1;
    } else if len >= 243 {
      extra := 2;
    }
    if extra == 0 {
      out[pos] := out[pos] + len;
    } else if extra == 1 {
      out[pos] := out[pos] + 13;
      out[pos + deltaExtra + 1] := len + 13;
    } else {
      out[pos] := out[pos] + 14;
      var tempLen := U16(len + 269);
      out[pos + deltaExtra + 1] := tempLen / 0x100;
      out[pos + deltaExtra + 2] := tempLen % 0x100;
    }
  }

  lemma {:induction false} HeaderInPieces(delta: uint16, len: byte, s: Bytes, pos: nat)
    requires At(s, pos, [Nibble(delta) * 16 + Nibble(len)])
    requires At(s, pos + 1, Extension(delta)) && At(s, pos + 1 + |Extension(delta)|, Extension(len))
    ensures At(s, pos, Header(delta, len))
  {
    hide Extension, Nibble, At;
    var first := [Nibble(delta) * 16 + Nibble(len)];
    AtSplit(s, pos, first, Extension(delta));
    AtSplit(s, pos, first + Extension(delta), Extension(len));
  }

  /** Writes a header with room for extensions, and returns the position where the value begins. */
  method WriteExtendedHeader(delta: uint16, len: byte, out: array<byte>, pos: nat) returns (next: nat)
    requires pos + 5 <= out.Length
    modifies out
    ensures next == pos + |Header(delta, len)|
    ensures out[..pos] == old(out[..pos]) && out[pos..next] == Header(delta, len)
  {
    hide Extension, Nibble, Header;
    var deltaExtra := WriteDelta(delta, out, pos);
    var lenExtra := WriteLen(len, out, pos, deltaExtra);
    next := pos + 1 + deltaExtra + lenExtra;
    HeaderInPieces(delta, len, out[..], pos);
  }

  /** Writes the header of one option; short deltas and lengths share the first byte. */
  method WriteHeader(delta: uint16, len: byte, out: array<byte>, pos: nat) returns (next: nat)
    requires pos + 5 <= out.Length
    modifies out
    ensures next == pos + |Header(delta, len)|
    ensures out[..pos] == old(out[..pos]) && out[pos..next] == Header(delta, len)
  {
    if delta < 13 && len < 13 {
      out[pos] := delta * 16 + len;
      next := pos + 1;
    } else {
      next := WriteExtendedHeader(delta, len, out, pos);
    }
  }

  method WriteOption(o: CoapOption, out: array<byte>, pos: nat) returns (next: nat)
    requires pos + 5 + |o.value| <= out.Length
    modifies out
    ensures next == pos + |EncodeOption(o)|
    ensures out[..next] == old(out[..pos]) + EncodeOption(o)
  {
    var start := WriteHeader(o.delta, |o.value|, out, pos);
    assert out[..start] == out[..pos] + out[pos..start];
    Append(o.value, out, start);
    next := start + |o.value|;
  }

  lemma {:induction false} EncodeOptionsSnoc(os: seq<CoapOption>, o: CoapOption)
    ensures EncodeOptions(os + [o]) == EncodeOptions(os) + EncodeOption(o)
    ensures MaxEncodedLen(os + [o]) == MaxEncodedLen(os) + 5 + |o.value|
  {
    if os == [] {
      assert [] + [o] == [o];
    } else {
      assert (os + [o])[1..] == os[1..] + [o];
      EncodeOptionsSnoc(os[1..], o);
    }
  }

  lemma {:induction false} MaxEncodedLenPrefix(os: seq<CoapOption>, i: nat)
    requires i <= |os|
    ensures MaxEncodedLen(os[..i]) <= MaxEncodedLen(os)
  {
    if i > 0 {
      assert os[..i][1..] == os[1..][..i - 1];
      MaxEncodedLenPrefix(os[1..], i - 1);
    }
  }

  /** `options_into_byte_string`, on the buffer size its callers provide. */
  method OptionsIntoByteString(options: seq<CoapOption>, out: array<byte>) returns (len: nat)
    requires MaxEncodedLen(options) <= out.Length
    modifies out
    ensures len <= out.Length && out[..len] == EncodeOptions(options)
  {
    len := 0;
    for i := 0 to |options|
      invariant len <= out.Length && out[..len] == EncodeOptions(options[..i])
    {
      assert options[..i] + [options[i]] == options[..i + 1];
      EncodeOptionsSnoc(options[..i], options[i]);
      MaxEncodedLenPrefix(options, i + 1);
      len := WriteOption(options[i], out, len);
    }
    assert options[..|options|] == options;
  }

  // ----- the readers -----

  /** `Outer` is `buf2options`, `Inner` is `oscore_packet_options_parser`. */
  datatype Reader = Outer | Inner

  function ReadDelta(nibble: nat, ext: Bytes): (d: byte)
    requires nibble < 15 && |ext| == ExtensionSize(nibble)
  {
    if nibble < 13 then nibble
    else
      var b0: int := ext[0];
      if nibble == 13 then U8(b0 - 13)
      else var b1: int := ext[1]; U8(b0 * 0x100 + b1 - 269)
  }

  function ReadLen(reader: Reader, nibble: nat, ext: Bytes): (l: byte)
    requires nibble < 15 && |ext| == ExtensionSize(nibble)
  {
    if nibble < 13 then nibble
    else
      var b0: int := ext[0];
      var sign := if reader == Outer then 1 else -1;
      if nibble == 13 then U8(b0 + sign * 13)
      else var b1: int := ext[1]; U8(b0 * 0x100 + b1 + sign * 269)
  }

  function ExtensionSize(nibble: nat): nat {
    if nibble < 13 then 0 else if nibble == 13 then 1 else 2
  }

  /** One option as read: its delta, its value, and where the next option begins. */
  datatype Parsed = Parsed(delta: byte, value: OptionValue, next: nat)

  function ReadOption(reader: Reader, buf: Bytes, pos: nat): (r: Result<Parsed>)
    ensures r.Ok? ==> pos < r.value.next <= |buf|
  {
    if pos >= |buf| then Fail(Undefined) else
    var deltaNibble, lenNibble := buf[pos] / 16, buf[pos] % 16;
    if deltaNibble == 15 then Fail(InvalidOptionDelta) else
    var afterDelta := pos + 1 + ExtensionSize(deltaNibble);
    if afterDelta > |buf| then Fail(Undefined) else
    if lenNibble == 15 then Fail(InvalidOptionLen) else
    var start := afterDelta + ExtensionSize(lenNibble);
    if start > |buf| then Fail(Undefined) else
    var len := ReadLen(reader, lenNibble, buf[afterDelta..start]);
    if start + len > |buf| then Fail(Undefined)
    else Ok(Parsed(ReadDelta(deltaNibble, buf[pos + 1..afterDelta]), buf[start..start + len], start + len))
  }

  /**
   * The options that begin before `end`; `number` is the running sum and `slots` is what is
   * left of the output array.  The 16-bit byte counter of the source cannot wrap before the
   * slots are used up, and a value may reach past `end`, because the source keeps pointers
   * into the whole packet.
   */
  function ReadOptions(reader: Reader, buf: Bytes, pos: nat, end: nat, number: byte, slots: nat)
    : (r: Result<seq<CoapOption>>)
    ensures r.Ok? ==> |r.value| <= slots
    decreases slots
  {
    if pos >= end then Ok([])
    else if slots == 0 then Fail(Undefined)
    else
      var p :- ReadOption(reader, buf, pos);
      var n := U8(number + p.delta);
      var rest :- ReadOptions(reader, buf, p.next, end, n, slots - 1);
      Ok([CoapOption(p.delta, n, p.value)] + rest)
  }

  /** The options read so far, in front of what is still to be read. */
  function Prepend(options: seq<CoapOption>, rest: Result<seq<CoapOption>>): Result<seq<CoapOption>> {
    if rest.Ok? then Ok(options + rest.value) else rest
  }

  lemma {:induction false} PrependPrepend(a: seq<CoapOption>, b: seq<CoapOption>, r: Result<seq<CoapOption>>)
    ensures Prepend(a, Prepend(b, r)) == Prepend(a + b, r)
  {
    if r.Ok? {
      assert a + (b + r.value) == a + b + r.value;
    }
  }

  lemma {:induction false} PrependNothing(r: Result<seq<CoapOption>>)
    ensures Prepend([], r) == r
  {
    if r.Ok? {
      assert [] + r.value == r.value;
    }
  }

  lemma {:induction false} ReadOptionsUnfold(
      reader: Reader, buf: Bytes, pos: nat, end: nat, number: byte, slots: nat, p: Parsed)
    requires pos < end && slots > 0 && ReadOption(reader, buf, pos) == Ok(p)
    ensures var n := U8(number + p.delta);
      ReadOptions(reader, buf, pos, end, number, slots) ==
      Prepend([CoapOption(p.delta, n, p.value)], ReadOptions(reader, buf, p.next, end, n, slots - 1))
  {
  }

  /** The parsing loop shared by `buf2options` and `oscore_packet_options_parser`. */
  method ParseOptions(reader: Reader, buf: Bytes, from: nat, len: nat, slots: nat)
    returns (r: Result<seq<CoapOption>>)
    ensures r == ReadOptions(reader, buf, from, from + len, 0, slots)
  {
    hide ReadOption;
    var options: seq<CoapOption> := [];
    var pos, i, number: byte := from, 0, 0;
    ghost var end := from + len;
    PrependNothing(ReadOptions(reader, buf, from, end, 0, slots));
    while i < len
      invariant pos == from + i && |options| <= slots
      invariant ReadOptions(reader, buf, from, end, 0, slots) ==
                Prepend(options, ReadOptions(reader, buf, pos, end, number, slots - |options|))
      decreases slots - |options|, len - i
    {
      if |options| == slots {
        return Fail(Undefined);
      }
      var read := ReadOption(reader, buf, pos);
      if read.Fail? {
        return Fail(read.err);
      }
      var p := read.value;
      ReadOptionsUnfold(reader, buf, pos, end, number, slots - |options|, p);
      number := U8(number + p.delta);
      var option := CoapOption(p.delta, number, p.value);
      PrependPrepend(options, [option], ReadOptions(reader, buf, p.next, end, number, slots - |options| - 1));
      options := options + [option];
      i := i + p.next - pos;
      pos := p.next;
    }
    assert options + [] == options;
    return Ok(options);
  }

  // ----- the standard -----

  /** Delta and length as section 3.1 of RFC 7252 reads them from a nibble and the extension bytes. */
  function StandardField(nibble: nat, ext: Bytes): int
    requires |ext| == ExtensionSize(nibble)
  {
    if nibble < 13 then nibble
    else if nibble == 13 then var b: int := ext[0]; b + 13
    else var hi: int, lo: int := ext[0], ext[1]; hi * 0x100 + lo + 269
  }

  /** What a reader of the standard is off by: the writer adds 13 or 269 where it should subtract. */
  function Excess(n: int): int {
    if n <= 12 then 0 else if n <= 242 then 26 else 538
  }

  lemma {:induction false} FieldExcess(n: uint16)
    requires n < 0x1_0000 - 269
    ensures Nibble(n) < 15 && |Extension(n)| == ExtensionSize(Nibble(n))
    ensures StandardField(Nibble(n), Extension(n)) == n + Excess(n)
  {
    if n >= 243 {
      var w: int := n + 269;
      assert w / 0x100 * 0x100 + w % 0x100 == w;
    }
  }

  /**
   * A written option: one byte with both nibbles, the extension bytes of delta and length, the
   * value.  A reader of the standard obtains delta and length just when both are below 13, and
   * otherwise a delta or length that is 26 or 538 too large.
   */
  lemma {:induction false} StandardReading(o: CoapOption)
    requires o.delta < 0x1_0000 - 269
    ensures var bytes := EncodeOption(o);
      var d, l := bytes[0] / 16, bytes[0] % 16;
      var p, q := 1 + ExtensionSize(d), 1 + ExtensionSize(d) + ExtensionSize(l);
      && d < 15 && l < 15 && q + |o.value| == |bytes| && bytes[q..] == o.value
      && StandardField(d, bytes[1..p]) == o.delta + Excess(o.delta)
      && StandardField(l, bytes[p..q]) == |o.value| + Excess(|o.value|)
  {
    hide Nibble, Extension, StandardField, Excess;
    FieldExcess(o.delta);
    FieldExcess(|o.value|);
    var bytes, d, l := EncodeOption(o), Nibble(o.delta), Nibble(|o.value|);
    assert bytes[0] == d * 16 + l;
    assert bytes[0] / 16 == d && bytes[0] % 16 == l;
    var p, q := 1 + ExtensionSize(d), 1 + ExtensionSize(d) + ExtensionSize(l);
    assert bytes == [d * 16 + l] + Extension(o.delta) + Extension(|o.value|) + o.value;
    assert bytes[1..p] == Extension(o.delta) && bytes[p..q] == Extension(|o.value|);
  }

  /** By nibble, what the readers take off an extended field. */
  function TakenOff(nibble: nat): int {
    if nibble <= 12 then 0 else if nibble == 13 then 26 else 538
  }

  /**
   * What the readers make of any bytes: 15 is refused; otherwise delta and value follow from
   * what the standard says, less the excess, in 8 bits.  The outer reader takes lengths as the
   * standard says.
   */
  lemma {:induction false} ReadingAnyBytes(reader: Reader, buf: Bytes, pos: nat)
    requires pos < |buf|
    ensures var d, l, r := buf[pos] / 16, buf[pos] % 16, ReadOption(reader, buf, pos);
      var p, q := pos + 1 + ExtensionSize(d), pos + 1 + ExtensionSize(d) + ExtensionSize(l);
      && (d == 15 ==> r == Fail(InvalidOptionDelta))
      && (l == 15 ==> r.Fail?)
      && (r.Ok? ==>
            && q <= |buf| && r.value.delta == U8(StandardField(d, buf[pos + 1..p]) - TakenOff(d))
            && |r.value.value| == U8(StandardField(l, buf[p..q]) - if reader == Outer then 0 else TakenOff(l))
            && r.value.next == q + |r.value.value| && r.value.value == buf[q..r.value.next])
      && (r == Fail(Undefined) ==>
            q > |buf| || q + U8(StandardField(l, buf[p..q]) - if reader == Outer then 0 else TakenOff(l)) > |buf|)
  {
  }

  // ----- reader after writer -----

  /** The option numbers are the running 8-bit sums of the deltas. */
  predicate Chained(number: byte, os: seq<CoapOption>)
    decreases |os|
  {
    os == [] || (os[0].number == U8(number + os[0].delta) && Chained(os[0].number, os[1..]))
  }

  /** What a reader can get back: 8-bit deltas, and for the outer reader no extended length. */
  predicate Readable(reader: Reader, o: CoapOption) {
    o.delta < 0x100 && (reader == Outer ==> |o.value| < 13)
  }

  predicate AllReadable(reader: Reader, os: seq<CoapOption>) {
    forall i :: 0 <= i < |os| ==> Readable(reader, os[i])
  }

  lemma {:induction false} ReadDeltaOfWritten(n: uint16)
    ensures |Extension(n)| == ExtensionSize(Nibble(n))
    ensures ReadDelta(Nibble(n), Extension(n)) == U8(n)
  {
    if n >= 243 {
      var w: int := U16(n + 269);
      assert w / 0x100 * 0x100 + w % 0x100 == w;
      assert U8(w - 269) == U8(n);
    }
  }

  lemma {:induction false} ReadLenOfWritten(reader: Reader, n: byte)
    ensures |Extension(n)| == ExtensionSize(Nibble(n))
    ensures ReadLen(reader, Nibble(n), Extension(n)) == if n < 13 || reader == Inner then n else U8(n + 26)
  {
  }

  /** Reading one written option. */
  lemma {:induction false} ReadWrittenOption(reader: Reader, buf: Bytes, pos: nat, o: CoapOption)
    requires At(buf, pos, EncodeOption(o))
    ensures var r := ReadOption(reader, buf, pos);
      && (|o.value| < 13 || reader == Inner ==> r == Ok(Parsed(U8(o.delta), o.value, pos + |EncodeOption(o)|)))
      && (|o.value| >= 13 && reader == Outer && r.Ok? ==> |r.value.value| != |o.value|)
      && (r.Ok? ==> r.value.delta == U8(o.delta))
  {
    hide Extension, Nibble, ReadDelta, ReadLen, At;
    var d, l := Extension(o.delta), Extension(|o.value|);
    var first := Nibble(o.delta) * 16 + Nibble(|o.value|);
    ReadDeltaOfWritten(o.delta);
    ReadLenOfWritten(reader, |o.value|);
    AtSplit(buf, pos, [first] + d + l, o.value);
    AtSplit3(buf, pos, [first], d, l);
    AtByte(buf, pos, first);
    AtSlice(buf, pos + 1, d);
    AtSlice(buf, pos + 1 + |d|, l);
    AtSlice(buf, pos + 1 + |d| + |l|, o.value);
    assert first / 16 == Nibble(o.delta) && first % 16 == Nibble(|o.value|);
  }

  function LastSize(os: seq<CoapOption>): nat {
    if os == [] then 0 else |EncodeOption(os[|os| - 1])|
  }

  /** Reading a list that begins with a written option. */
  lemma {:induction false} ReadWrittenHead(
      reader: Reader, buf: Bytes, pos: nat, o: CoapOption, end: nat, number: byte, slots: nat)
    requires At(buf, pos, EncodeOption(o))
    requires pos < end && slots > 0 && o.number == U8(number + o.delta)
    ensures var r := ReadOptions(reader, buf, pos, end, number, slots);
      && (Readable(reader, o) ==>
            r == Prepend([o], ReadOptions(reader, buf, pos + |EncodeOption(o)|, end, o.number, slots - 1)))
      && (!Readable(reader, o) && r.Ok? ==> r.value != [] && r.value[0] != o)
  {
    hide ReadOption, EncodeOption, Header, At;
    ReadWrittenOption(reader, buf, pos, o);
    var read := ReadOption(reader, buf, pos);
    if read.Ok? {
      ReadOptionsUnfold(reader, buf, pos, end, number, slots, read.value);
    }
  }

  /**
   * Reading what was written gives the options back exactly when each of them is readable.
   * `cut` bytes at the end of the last option may lie beyond the announced length.
   */
  lemma {:induction false} ReadWrittenOptions(
      reader: Reader, buf: Bytes, pos: nat, os: seq<CoapOption>, cut: nat, number: byte, slots: nat)
    requires At(buf, pos, EncodeOptions(os))
    requires Chained(number, os) && |os| <= slots
    requires cut <= |EncodeOptions(os)| && (cut == 0 || cut < LastSize(os))
    ensures ReadOptions(reader, buf, pos, pos + |EncodeOptions(os)| - cut, number, slots) == Ok(os)
            <==> AllReadable(reader, os)
    decreases |os|
  {
    hide ReadOption, EncodeOption, Header, At, Readable, AllReadable, LastSize;
    NoneReadable(reader);
    if os != [] {
      var o, rest := os[0], os[1..];
      var next, end := pos + |EncodeOption(o)|, pos + |EncodeOptions(os)| - cut;
      AtSplit(buf, pos, EncodeOption(o), EncodeOptions(rest));
      EncodedLenBounds(os);
      ReadWrittenHead(reader, buf, pos, o, end, number, slots);
      if rest != [] {
        LastSizeOfRest(os);
        ReadWrittenOptions(reader, buf, next, rest, cut, o.number, slots - 1);
      }
      PrependIff(o, rest, ReadOptions(reader, buf, next, end, o.number, slots - 1));
      AllReadableCons(reader, os);
    }
  }

  lemma {:induction false} PrependIff(o: CoapOption, rest: seq<CoapOption>, r: Result<seq<CoapOption>>)
    ensures Prepend([o], r) == Ok([o] + rest) <==> r == Ok(rest)
  {
    if r.Ok? {
      assert ([o] + r.value)[1..] == r.value && ([o] + rest)[1..] == rest;
    }
  }

  lemma {:induction false} AllReadableCons(reader: Reader, os: seq<CoapOption>)
    requires os != []
    ensures os == [os[0]] + os[1..]
    ensures AllReadable(reader, os) <==> Readable(reader, os[0]) && AllReadable(reader, os[1..])
  {
  }

  lemma {:induction false} NoneReadable(reader: Reader)
    ensures AllReadable(reader, [])
  {
  }

  lemma {:induction false} LastSizeOfRest(os: seq<CoapOption>)
    requires |os| > 1
    ensures LastSize(os[1..]) == LastSize(os)
  {
  }

  lemma {:induction false} EncodedLenBounds(os: seq<CoapOption>)
    ensures LastSize(os) <= |EncodeOptions(os)|
    ensures os != [] ==> (|os| == 1 || LastSize(os) + |EncodeOption(os[0])| <= |EncodeOptions(os)|)
  {
    if |os| > 1 {
      assert os[1..][|os| - 2] == os[|os| - 1];
      EncodedLenBounds(os[1..]);
    }
  }

  /** The inner codec is lossless on every chained list with 8-bit deltas; its loop ends exactly at the end. */
  lemma {:induction false} InnerCodecRoundTrip(os: seq<CoapOption>, slots: nat)
    requires Chained(0, os) && |os| <= slots
    requires forall i :: 0 <= i < |os| ==> os[i].delta < 0x100
    ensures ReadOptions(Inner, EncodeOptions(os), 0, |EncodeOptions(os)|, 0, slots) == Ok(os)
  {
    ReadWrittenOptions(Inner, EncodeOptions(os), 0, os, 0, 0, slots);
  }

  /** A header byte never looks like the payload marker, so an option that ends in one has more than a header. */
  lemma {:induction false} LastByteOfOptions(os: seq<CoapOption>)
    requires os != []
    ensures |EncodeOptions(os)| > 0
    ensures EncodeOptions(os)[|EncodeOptions(os)| - 1] == 0xFF ==> LastSize(os) > 1
  {
    if |os| == 1 {
      assert EncodeOptions(os) == EncodeOption(os[0]);
    } else {
      LastByteOfOptions(os[1..]);
      assert os[1..][|os| - 2] == os[|os| - 1];
    }
  }
}
