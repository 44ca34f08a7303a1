/**
 * Option classes, the split of a packet's options into encrypted (E) and unprotected (U) ones,
 * and the length the sender predicts for the encoded E options.
 */
module OptionSplit {
  import opened Common
  import opened CoapOption

  const OSCORE_NUMBER := 9

  predicate IsClassE(number: uint16) {
    number != 3 && number != 7 && number != OSCORE_NUMBER && number != 35 && number != 39
  }

  datatype OptionClass = ClassU | ClassI | ClassE

  predicate BelongsTo(number: uint16, cls: OptionClass) {
    match cls
    case ClassI => false
    case ClassE => IsClassE(number)
    case ClassU => false
  }

  function FieldLen(value: uint16): nat {
    if value < 13 then 0 else if value < 269 then 1 else 2
  }

  function ClassLen(os: seq<CoapOption>, total: uint16, cls: OptionClass): nat {
    if os == [] then 0
    else
      var code := U16(total + os[0].delta);
      var l := |os[0].value|;
      (if BelongsTo(code, cls) then 1 + FieldLen(os[0].delta) + FieldLen(l) + l else 0) + ClassLen(os[1..], code, cls)
  }

  /** The computed field sizes are those of the writer, except between 243 and 268. */
  lemma {:induction false} FieldLenIs(n: uint16)
    ensures |Extension(n)| == FieldLen(n) + if 243 <= n <= 268 then 1 else 0
  {
  }

  /** When all options are of class E their computed length is that of their encoding, without such fields. */
  lemma {:induction false} ClassLenIs(os: seq<CoapOption>, total: byte)
    requires Ordered(total, os) && AllProtected(os)
    requires forall i :: 0 <= i < |os| ==> os[i].delta <= 242 && |os[i].value| <= 242
    ensures ClassLen(os, total, ClassE) == |EncodeOptions(os)|
    ensures ClassLen(os, total, ClassU) == 0 && ClassLen(os, total, ClassI) == 0
    decreases |os|
  {
    if os != [] {
      hide Extension, FieldLen, IsClassE, Unprotected;
      var rest := os[1..];
      assert forall i :: 0 < i < |os| ==> os[i] == rest[i - 1];
      FieldLenIs(os[0].delta);
      FieldLenIs(|os[0].value|);
      OrderedSum(total, os[0], total);
      ClassEIs(os[0].number);
      ClassLenIs(rest, os[0].number);
      EncodeOptionsCons(os[0], rest);
      assert os == [os[0]] + rest;
      NumberIsSum(total, os[0]);
    }
  }

  lemma {:induction false} NumberIsSum(total: byte, o: CoapOption)
    requires o.number == total + o.delta
    ensures U16(total + o.delta) == o.number
  {
  }

  method EncodedOptionLen(os: seq<CoapOption>, cls: OptionClass) returns (len: nat)
    ensures len == ClassLen(os, 0, cls)
    ensures cls == ClassI ==> len == 0
  {
    len := 0;
    var total: uint16 := 0;
    for i := 0 to |os|
      invariant ClassLen(os, 0, cls) == len + ClassLen(os[i..], total, cls)
      invariant cls == ClassI ==> len == 0
    {
      assert os[i..][1..] == os[i + 1..];
      total := U16(total + os[i].delta);
      if BelongsTo(total, cls) {
        len := len + 1 + FieldLen(os[i].delta) + FieldLen(|os[i].value|) + |os[i].value|;
      }
    }
  }

  // ----- the split -----

  /**
   * The options of one kind, with deltas relative to the previous option of that kind.
   * `number` is the running sum over all options, `last` the one over the selected options.
   */
  function Select(os: seq<CoapOption>, number: byte, last: byte, encrypted: bool): (r: seq<CoapOption>)
    ensures |r| <= |os|
    decreases |os|
  {
    if os == [] then []
    else
      var n := U8(number + os[0].delta);
      if IsClassE(n) == encrypted
      then [CoapOption(U16(n - last), n, os[0].value)] + Select(os[1..], n, n, encrypted)
      else Select(os[1..], n, last, encrypted)
  }

  function PredictedExtra(n: uint16): nat {
    if 13 < n && n < 243 then 1 else if n >= 243 then 2 else 0
  }

  /** The length the sender predicts for the encoded E options, from the deltas before re-basing. */
  function PredictedLen(os: seq<CoapOption>, number: byte): nat
    decreases |os|
  {
    if os == [] then 0
    else
      var n := U8(number + os[0].delta);
      var l := |os[0].value|;
      (if IsClassE(n) then 1 + PredictedExtra(os[0].delta) + PredictedExtra(l) + l else 0) + PredictedLen(os[1..], n)
  }

  lemma {:induction false} RunningSum(n: byte, sum: byte)
    ensures U8(sum + U16(n - sum)) == n
  {
  }

  /** Taking one more option moves it from what is left to what is collected. */
  lemma {:induction false} SelectStep(
      os: seq<CoapOption>, i: nat, number: byte, last: byte, encrypted: bool, taken: seq<CoapOption>, all: seq<CoapOption>)
    requires i < |os| && taken + Select(os[i..], number, last, encrypted) == all
    ensures var n := U8(number + os[i].delta);
      if IsClassE(n) == encrypted
      then taken + [CoapOption(U16(n - last), n, os[i].value)] + Select(os[i + 1..], n, n, encrypted) == all
      else taken + Select(os[i + 1..], n, last, encrypted) == all
  {
    hide IsClassE, U16, U8;
    assert os[i..][1..] == os[i + 1..];
  }

  lemma {:induction false} PredictedLenFrom(os: seq<CoapOption>, i: nat, number: byte)
    requires i < |os|
    ensures var n, l := U8(number + os[i].delta), |os[i].value|;
      PredictedLen(os[i..], number) == PredictedLen(os[i + 1..], n) +
        if IsClassE(n) then 1 + PredictedExtra(os[i].delta) + PredictedExtra(l) + l else 0
  {
    hide IsClassE, U8, PredictedExtra;
    assert os[i..][1..] == os[i + 1..];
  }

  /** `e_u_options_extract`; the 16-bit length cannot wrap with at most 20 options. */
  method EUOptionsExtract(os: seq<CoapOption>) returns (e: seq<CoapOption>, eLen: nat, u: seq<CoapOption>)
    ensures e == Select(os, 0, 0, true) && u == Select(os, 0, 0, false)
    ensures eLen == PredictedLen(os, 0)
  {
    hide PredictedExtra, IsClassE, U16, U8, Select, PredictedLen;
    e, eLen, u := [], 0, [];
    var number: byte, eSum: byte, uSum: byte := 0, 0, 0;
    assert os[0..] == os;
    for i := 0 to |os|
      invariant e + Select(os[i..], number, eSum, true) == Select(os, 0, 0, true)
      invariant u + Select(os[i..], number, uSum, false) == Select(os, 0, 0, false)
      invariant eLen + PredictedLen(os[i..], number) == PredictedLen(os, 0)
    {
      SelectStep(os, i, number, eSum, true, e, Select(os, 0, 0, true));
      SelectStep(os, i, number, uSum, false, u, Select(os, 0, 0, false));
      PredictedLenFrom(os, i, number);
      var deltaExtra, lenExtra := PredictedExtra(os[i].delta), PredictedExtra(|os[i].value|);
      number := U8(number + os[i].delta);
      if IsClassE(number) {
        var delta := U16(number - eSum);
        e := e + [CoapOption(delta, number, os[i].value)];
        RunningSum(number, eSum);
        eSum := U8(eSum + delta);
        eLen := eLen + 1 + deltaExtra + lenExtra + |os[i].value|;
      } else {
        var delta := U16(number - uSum);
        u := u + [CoapOption(delta, number, os[i].value)];
        RunningSum(number, uSum);
        uSum := U8(uSum + delta);
      }
    }
    NothingLeft(number, eSum, true);
    NothingLeft(number, uSum, false);
    assert os[|os|..] == [];
  }

  lemma {:induction false} NothingLeft(number: byte, last: byte, encrypted: bool)
    ensures Select([], number, last, encrypted) == [] && PredictedLen([], number) == 0
  {
  }

  // ----- lists as a sender builds them -----

  /** The running sum of the deltas stays below 256, so the option numbers ascend. */
  predicate Ordered(number: nat, os: seq<CoapOption>)
    decreases |os|
  {
    os == [] || (os[0].number == number + os[0].delta && Ordered(os[0].number, os[1..]))
  }

  lemma {:induction false} OrderedChained(number: byte, os: seq<CoapOption>)
    requires Ordered(number, os)
    ensures Chained(number, os)
    ensures forall i :: 0 <= i < |os| ==> number <= os[i].number && os[i].delta < 0x100
    decreases |os|
  {
    if os != [] {
      OrderedChained(os[0].number, os[1..]);
    }
  }

  lemma {:induction false} OrderedCons(last: byte, o: CoapOption, rest: seq<CoapOption>)
    requires o.number == last + o.delta && Ordered(o.number, rest)
    ensures Ordered(last, [o] + rest)
  {
    assert ([o] + rest)[1..] == rest;
  }

  /** Re-basing keeps the running sums: the selected options again form an ordered list. */
  lemma {:induction false} SelectOrdered(os: seq<CoapOption>, number: byte, last: byte, encrypted: bool)
    requires Ordered(number, os) && last <= number
    ensures Ordered(last, Select(os, number, last, encrypted))
    decreases |os|
  {
    if os != [] {
      hide IsClassE, U8, U16;
      var n := os[0].number;
      OrderedSum(number, os[0], last);
      SelectOrdered(os[1..], n, if IsClassE(n) == encrypted then n else last, encrypted);
      if IsClassE(n) == encrypted {
        OrderedCons(last, CoapOption(n - last, n, os[0].value), Select(os[1..], n, n, encrypted));
      }
    }
  }

  // ----- the predicted length -----

  /** By how much the extension bytes predicted from a delta fall short of those of the re-based delta. */
  function Missing(delta: int, rebased: int): nat {
    if rebased <= 12 then 0
    else if rebased <= 242 then if delta <= 13 then 1 else 0
    else if delta <= 13 then 2
    else if delta <= 242 then 1
    else 0
  }

  /** Uri-Host, Uri-Port, OSCORE, Proxy-Uri and Proxy-Scheme are not encrypted. */
  predicate Unprotected(number: int) {
    number in {3, 7, 9, 35, 39}
  }

  /** By how much the predicted length of the E options falls short; `last` is the number of the E option before. */
  function Shortfall(os: seq<CoapOption>, last: int): nat {
    if os == [] then 0
    else if Unprotected(os[0].number) then Shortfall(os[1..], last)
    else
      Missing(os[0].delta, os[0].number - last) + (if |os[0].value| == 13 then 1 else 0)
      + Shortfall(os[1..], os[0].number)
  }

  lemma {:induction false} MissingIs(delta: uint16, rebased: uint16)
    requires delta <= rebased
    ensures |Extension(rebased)| == PredictedExtra(delta) + Missing(delta, rebased)
  {
  }

  lemma {:induction false} MissingLen(len: byte)
    ensures |Extension(len)| == PredictedExtra(len) + if len == 13 then 1 else 0
  {
  }

  lemma {:induction false} ClassEIs(number: byte)
    ensures IsClassE(number) <==> !Unprotected(number)
  {
  }

  /** The encoded E options have the predicted length plus the shortfall. */
  lemma {:induction false} PredictedLenIs(os: seq<CoapOption>, number: byte, last: byte)
    requires Ordered(number, os) && last <= number
    ensures |EncodeOptions(Select(os, number, last, true))| == PredictedLen(os, number) + Shortfall(os, last)
    decreases |os|
  {
    if os != [] {
      hide Extension, PredictedExtra, IsClassE, EncodeOption, U8, U16, Missing, Unprotected;
      var n, l := os[0].number, |os[0].value|;
      OrderedSum(number, os[0], last);
      ClassEIs(n);
      if IsClassE(n) {
        MissingIs(os[0].delta, n - last);
        MissingLen(l);
        PredictedLenIs(os[1..], n, n);
        EncodeOptionsCons(CoapOption(U16(n - last), n, os[0].value), Select(os[1..], n, n, true));
      } else {
        PredictedLenIs(os[1..], n, last);
      }
    }
  }

  lemma {:induction false} OrderedSum(number: byte, o: CoapOption, last: byte)
    requires o.number == number + o.delta && last <= number
    ensures U8(number + o.delta) == o.number && U16(o.number - last) == o.number - last && o.number < 0x100
  {
  }

  /** The number of the last E option before position i, or 0. */
  function LastE(os: seq<CoapOption>, i: nat): int
    requires i <= |os|
  {
    if i == 0 then 0
    else if Unprotected(os[i - 1].number) then LastE(os, i - 1)
    else os[i - 1].number
  }

  /** Neither does the value have 13 bytes, nor does re-basing carry the delta across 13 or 243. */
  predicate WellSized(os: seq<CoapOption>, i: nat)
    requires i < |os|
  {
    var rebased := os[i].number - LastE(os, i);
    |os[i].value| != 13 && (rebased <= 12 || os[i].delta >= 14) && (rebased <= 242 || os[i].delta >= 243)
  }

  /** The prediction is exact just when every E option is well-sized. */
  lemma {:induction false} NoShortfallIff(os: seq<CoapOption>, i: nat)
    requires i <= |os|
    ensures Shortfall(os[i..], LastE(os, i)) == 0 <==>
            forall k :: i <= k < |os| && !Unprotected(os[k].number) ==> WellSized(os, k)
    decreases |os| - i
  {
    if i < |os| {
      hide Unprotected;
      assert os[i..][1..] == os[i + 1..];
      NoShortfallIff(os, i + 1);
    }
  }

  /** How many deltas and value lengths are exactly 13. */
  function Thirteens(os: seq<CoapOption>): nat {
    if os == [] then 0
    else (if os[0].delta == 13 then 1 else 0) + (if |os[0].value| == 13 then 1 else 0) + Thirteens(os[1..])
  }

  predicate AllProtected(os: seq<CoapOption>) {
    forall i :: 0 <= i < |os| ==> !Unprotected(os[i].number)
  }

  /** Without unprotected options the split changes nothing, and the prediction misses one byte for each 13. */
  lemma {:induction false} ThirteensAreMissing(os: seq<CoapOption>, number: byte)
    requires Ordered(number, os) && AllProtected(os)
    ensures Select(os, number, number, true) == os && Shortfall(os, number) == Thirteens(os)
    decreases |os|
  {
    if os != [] {
      hide IsClassE, U8, U16, Unprotected;
      var n := os[0].number;
      OrderedSum(number, os[0], number);
      ClassEIs(n);
      assert AllProtected(os[1..]);
      ThirteensAreMissing(os[1..], n);
      assert CoapOption(U16(n - number), n, os[0].value) == os[0];
    }
  }

  lemma {:induction false} EncodeOptionsCons(o: CoapOption, rest: seq<CoapOption>)
    ensures EncodeOptions([o] + rest) == EncodeOption(o) + EncodeOptions(rest)
    ensures |EncodeOption(o)| == 1 + |Extension(o.delta)| + |Extension(|o.value|)| + |o.value|
  {
    assert ([o] + rest)[1..] == rest;
  }

  /** A list within the sender's 30-byte bound has at most six options. */
  lemma {:induction false} FewOptions(os: seq<CoapOption>)
    ensures 5 * |os| <= MaxEncodedLen(os)
    ensures MaxEncodedLen(os) <= 30 ==> |os| <= 6
  {
    if os != [] {
      FewOptions(os[1..]);
    }
  }
}
