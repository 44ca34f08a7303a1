/** The EDHOC cipher suites and authentication methods. */
module Suites {
  import opened Common
  import opened Crypto

  const AEAD_KEY_LEN := 16
  const AEAD_IV_LEN := 13
  const SHA_LEN := 32
  const SIGNATURE_LEN := 64

  /** The members of `struct suite` that differ between suites. */
  datatype Suite = Suite(number: byte, tagLen: byte, macLen: byte, ecdh: EcdhAlg, sign: SignAlg)

  function GetSuite(number: byte): Result<Suite> {
    match number
    case 0 => Ok(Suite(0, 8, 8, X25519, EdDSA))
    case 1 => Ok(Suite(1, 16, 16, X25519, EdDSA))
    case 2 => Ok(Suite(2, 8, 8, P256, ES256))
    case 3 => Ok(Suite(3, 16, 16, P256, ES256))
    case _ => Fail(UnsupportedCipherSuite)
  }

  /** The table: even suites have 8-byte tags and MACs, odd ones 16; X25519 and EdDSA come first, then P-256 and ES256. */
  lemma {:induction false} SuiteTable(number: byte)
    ensures GetSuite(number).Ok? <==> number <= 3
    ensures GetSuite(number).Ok? ==>
              var s, size := GetSuite(number).value, if number == 0 || number == 2 then 8 else 16;
              && s.number == number && s.tagLen == size && s.macLen == size
              && (if number <= 1 then s.ecdh == X25519 && s.sign == EdDSA else s.ecdh == P256 && s.sign == ES256)
  {
  }

  function PkLen(alg: EcdhAlg): nat { if alg == P256 then 33 else 32 }

  /** Who authenticates with a static DH key. */
  datatype AuthType = AuthType(initiatorStatic: bool, responderStatic: bool)

  /** For other methods the flags keep the values they had. */
  function AuthTypeOf(methodType: int, before: AuthType): AuthType {
    match methodType
    case 0 => AuthType(false, false)
    case 1 => AuthType(false, true)
    case 2 => AuthType(true, false)
    case 3 => AuthType(true, true)
    case _ => before
  }

  /** The suites a responder supports; the loop over them counts in a byte. */
  type SuiteList = s: seq<byte> | |s| < 0x100 witness []

  method SelectedSuiteIsSupported(selected: byte, suitesR: SuiteList) returns (found: bool)
    ensures found <==> selected in suitesR
  {
    var i: byte := 0;
    while i < |suitesR|
      invariant i <= |suitesR| && selected !in suitesR[..i]
    {
      if suitesR[i] == selected {
        return true;
      }
      i := i + 1;
    }
    return false;
  }
}
