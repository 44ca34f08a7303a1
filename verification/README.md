# Verified model of uoscore-uedhoc

A Dafny model of the OSCORE and EDHOC implementation in this repository (RFC 8613 and
draft-ietf-lake-edhoc-12), with proofs about it.  `dafny verify dfyconfig.toml` checks everything.

The model follows the C code, not the standards: same branches, buffer sizes, integer widths and
error codes.  Where the code and its comments or the standards differ, the model does what the code
does, and a lemma says exactly when the result is still the intended one.  The error code
`Undefined` marks the places where the C program has no defined behaviour (an access outside an
object, a read of something uninitialised).

**Form.** Each operation is a function over values, and the C function that changes buffers or a
context step by step is a method with loops over arrays or over the fields of a class
(`SecurityContext.Context` for `struct context`, `Handshake.RuntimeContext` for
`struct runtime_context`), proved equal to that function.  The theorems are about the functions.  Lemmas are written with
`{:induction false}`: every induction is spelled out in the proof.

**Cryptography.** `Crypto.Primitives` is a record of unknown functions; the theorems that need it
assume only `Laws()`: decryption inverts encryption under equal key, nonce, associated data and tag
length; DH commutes; verification accepts what was signed with the matching key.  No injectivity of
hashes is assumed: `Transcript.TranscriptBinding` names the strings that would have to collide.

## Structure

| files | content |
|---|---|
| `Common`, `Sorting`, `Crypto`, `Cbor` | bytes and widths, sorting, primitives with their laws, CBOR items (section 3 of RFC 8949) |
| `CoapOption`, `CoapBody`, `CoapPacket` | option, body and packet codecs (section 3 of RFC 7252) |
| `OptionSplit`, `OptionMerge`, `SplitMerge` | option classes, the sender's split, the receiver's sort and merge, and their composition |
| `OscoreOption`, `Nonce`, `Cose`, `Hkdf` | option value, PIV and nonce, associated data and encryption, key derivation |
| `ReplayWindow`, `SecurityContext`, `Derivation` | the window array against its specification, the context object, and what its keys are derived from |
| `Protect`, `Unprotect`, `RoundTrip`, `Success`, `Opening` | `coap2oscore`, `oscore2coap`, one undoing the other, when the first succeeds, and what an output of either implies for any input |
| `ContextRuns`, `Sealing` | arbitrary call sequences on one context: keys, sequence numbers, and everything that is encrypted with its nonce |
| `Session`, `Network`, `Freshness` | one request and one response between matched contexts; runs over a network that loses, delays, reorders and repeats; what the replay window has noted then |
| `Suites`, `KeySchedule`, `Transcript`, `Identity`, `SignatureOrMac`, `Ciphertext`, `Messages` | the parts of EDHOC |
| `Handshake`, `Agreement`, `Methods` | initiator and responder; agreement when messages arrive; both by method number |
| `Authentication`, `Matching` | what a party that finishes has checked, whatever arrived, and what equal TH_4 implies |

## What the proofs found

- A payload is silently dropped when the predicted plaintext length falls short by exactly the
  payload and its marker (`Protect.SetupPlaintextCases`); the prediction misses one byte
  for each delta and each length of exactly 13 (`Protect.ThirteensDecide`).
- The outer option parser adds 13 or 269 to an extended length that the writer has already
  increased, so it loses every option with a value of 13 bytes or more (`CoapPacket.PacketRoundTrip`).
- The writer adds 13 or 269 to an extended delta or length where RFC 7252 subtracts: a reader of the
  standard obtains values 26 or 538 too large (`CoapOption.StandardReading`).
- Proxy-Uri and Proxy-Scheme are lost by the merge (`SplitMerge.MergeUndoesSplitIff`).
- `replay_check` never rejects, because its flag is a local: the same protected request is restored
  as often as it is delivered (`Session.ReplayedRequestIsRestored`, `Network.EveryDeliveryRestores`).
  An effective guard would have given the same results exactly on fresh numbers
  (`ReplayWindow.ShippedMatchesGuardIff`, `Freshness.WindowRemembersDelivered`).
- The comment in `create_nonce` speaks of network byte order; on a little-endian machine nonces repeat
  for numbers that differ by low-order zero bytes (`Nonce.NonceRepeatsIff`), and on a big-endian
  machine a PIV exists only for multiples of 2^24 (`Nonce.BigEndianPivIff`).
- Because the length of the last AAD becomes the capacity for the next one, a little-endian client
  can prepare exactly 256 requests, and the nonces of these differ (`ContextRuns.PreparedNoncesDiffer`).
  Later numbers still make nonces, and some of them equal earlier ones: number 256 gives that of
  number 1.  No request is encrypted under them (`Sealing.ClientHoldsLastNonce`,
  `Sealing.RequestNonceIsNew`).
- Responses are encrypted under the nonce that stands in the context, with the same sender key: a
  request and a response of one context, or two responses to one request, share key, nonce and
  associated data (`Sealing.ClientReusesNonce`, `Sealing.ServerReusesNonce`).
  `Sealing.NoncesCoincideIff` and `Sealing.ClientNoncesCoincideIff` say exactly which encryptions do.
- The PIV of sequence number 255 is the payload marker byte, so the receiver misreads that request
  (`Session.MarkerNumberIsMisread`).
- The MAC comparison runs over the received length, so every prefix of the MAC compares equal
  (`SignatureOrMac.MacAcceptedIff`).
- The byte counter of the tinycrypt `hkdf_expand` loop ends only below 255 blocks
  (`Hkdf.ByteCounterEnds`); lengths within 31 of 2^32 give no block at all (`Hkdf.HkdfExpandMbedtls`).

## Model

| member | source | states |
|---|---|---|
| ReplayWindow.CheckAgainstWindow | src/oscore/oscore2coap.c:505-527 | the guard the comments describe: accepted on the first run, above the last slot, or at least slot 0 and not in the window |
| ReplayWindow.ReplayCheck | src/oscore/oscore2coap.c:495-528 | as shipped, every number is accepted |
| ReplayWindow.InsertSenderSeqNumber | src/oscore/oscore2coap.c:530-539 | slot 0 is dropped, the slots up to the position move down, the number stands at the position, the rest is untouched |
| ReplayWindow.UpdateReplayWindow | src/oscore/oscore2coap.c:541-560 | the number lands in the first gap it fits in strictly, or at the end |
| ReplayWindow.RunRefines | src/oscore/oscore2coap.c:505-560 | over every run under the guard the array is ascending and holds exactly the 32 largest of the initial zeros and all accepted numbers, and no number is accepted twice |
| ReplayWindow.AcceptedIffFresh | src/oscore/oscore2coap.c:505-527 | after the first check a number is accepted if and only if it was never accepted before and exceeds the 32nd largest on record |
| ReplayWindow.AllPassIffFresh | src/oscore/oscore2coap.c:495-560 | the guard would pass every authentic arrival if and only if each but the first is fresh with respect to the ones before it |
| ReplayWindow.UpdateIsSortedInsert | src/oscore/oscore2coap.c:530-560 | on an ascending window the in-place shift is a sorted insertion that drops the smallest number |
| ReplayWindow.ShippedCheckAcceptsReplay | src/oscore/oscore2coap.c:495-503 | any number that arrives authentic twice is accepted twice by the check as shipped, and once under the guard; Session.ReplayedRequestIsRestored gives the packets |
| ReplayWindow.ShippedMatchesGuardIff | src/oscore/oscore2coap.c:495-560 | the shipped receiver accepts the same numbers and keeps the same window as the guarded one if and only if every authentic number after the first arrival is not zero, was not seen before, and fewer than 32 of the earlier authentic ones are as large: a condition on the arriving numbers alone |
| CoapOption.OptionsIntoByteString | src/oscore/oscore_coap.c:25-118 | the buffer holds the encoded options one behind the other, and the reported length is theirs |
| CoapOption.ParseOptions | src/oscore/oscore2coap.c:278-372 | the parsing loop shared by both parsers, with 8-bit number sums, a bounded output array and every error exit |
| CoapOption.ReadWrittenOptions | src/oscore/oscore_coap.c:25-220 | reading back what was written returns the same options if and only if every delta fits a byte and, for the outer parser, no value has 13 bytes or more |
| CoapOption.InnerCodecRoundTrip | src/oscore/oscore2coap.c:278-372 | the inner parser inverts the writer for every list with 8-bit deltas and chained numbers, over all nine header forms, ending exactly at the end |
| CoapOption.StandardReading | src/oscore/oscore_coap.c:25-118 | a written option is one byte of nibbles, the extension bytes and the value; read by section 3.1 of RFC 7252 its delta and length are exact below 13 and otherwise 26 or 538 too large |
| CoapOption.ReadingAnyBytes | src/oscore/oscore_coap.c:128-220 | on any bytes: nibble 15 is refused, deltas and inner lengths are the standard ones less 26 or 538 in 8 bits, outer lengths the standard ones, and the value is what follows |
| CoapBody.ParseBody | src/oscore/oscore_coap.c:259-302 | options up to the first 0xFF byte, payload behind it, with a 16-bit count of option bytes |
| CoapBody.BodyRoundTrip | src/oscore/oscore2coap.c:383-432 | options and payload are recovered if and only if every option is readable and no 0xFF stands inside the options (the very last byte excepted when no payload follows) |
| CoapPacket.Buf2Coap | src/oscore/oscore_coap.c:222-305 | header fields, token, options and payload, or the error of the failing step |
| CoapPacket.ReadHeaderIs | src/oscore/oscore_coap.c:222-258 | a packet that is read has at most eight token bytes, copied as they are, and its header fields reproduce the first four bytes |
| CoapPacket.Coap2Buf | src/oscore/oscore_coap.c:307-378 | on success the reported length is the number of bytes written and the buffer holds the serialized packet |
| CoapPacket.WriteSucceedsIff | src/oscore/oscore_coap.c:307-378 | writing succeeds if and only if the options stay within their bound and the whole packet fits the buffer |
| CoapPacket.PacketRoundTrip | src/oscore/oscore_coap.c:222-378 | buf2coap inverts coap2buf if and only if the options are readable and free of the marker byte |
| OptionSplit.EncodedOptionLen | src/oscore/option.c:58-75 | length of the encoded options of a class; zero for class I |
| OptionSplit.ClassLenIs | src/oscore/option.c:58-75 | with class E options only and no field above 242, the computed length is that of the encoding, and zero for the other classes |
| OptionSplit.EUOptionsExtract | src/oscore/coap2oscore.c:41-125 | both option lists with deltas re-based per class, and the predicted length of the E options |
| OptionSplit.SelectOrdered | src/oscore/coap2oscore.c:81-122 | re-basing keeps the running sums: the selected options again form an ordered list |
| OptionSplit.PredictedLenIs | src/oscore/coap2oscore.c:64-104 | the encoded E options have the predicted length plus a shortfall given by literal bounds on each delta, re-based delta and length |
| OptionSplit.NoShortfallIff | src/oscore/coap2oscore.c:64-104 | the prediction is exact if and only if no E option has a value of 13 bytes, and re-basing carries no delta across 13 or 243 |
| OptionSplit.ThirteensAreMissing | src/oscore/coap2oscore.c:64-122 | when all options are of class E the split changes nothing, and the prediction misses one byte for each delta and each length equal to 13 |
| OptionSplit.FewOptions | src/oscore/coap2oscore.c:146-153 | an option list that passes the 30-byte bound has at most six options |
| OptionMerge.InsertOscoreOption | src/oscore/coap2oscore.c:344-386 | the OSCORE option is inserted before the first larger number and all deltas are re-based |
| OptionMerge.OptionsFromOscoreReorder | src/oscore/oscore2coap.c:164-268 | in-place sort of the numbers and the two-cursor merge |
| Sorting.SortInPlace | src/oscore/oscore2coap.c:197-209 | the exchange sort leaves the sorted rearrangement |
| Sorting.AscendingIsSort | src/oscore/oscore2coap.c:197-209 | an ascending rearrangement is unique, so it is the sorted sequence |
| SplitMerge.OuterTags | src/oscore/coap2oscore.c:344-386 | the receiver sees the unprotected options below 9, the OSCORE option, then those above 9, with their values |
| SplitMerge.SortedNumbers | src/oscore/oscore2coap.c:174-209 | the sorted numbers, without the OSCORE option, are exactly the original option numbers in order |
| SplitMerge.WalkRestores | src/oscore/oscore2coap.c:214-262 | from any point of the walk the merge restores the remaining options with their deltas if and only if no unprotected option above 9 remains |
| SplitMerge.MergeUndoesSplitIff | src/oscore/oscore2coap.c:164-268 | split, insertion, sort and merge give back the same options, order and deltas, repeated ones included, if and only if there is no unprotected option numbered above 9 |
| OscoreOption.OscoreOptionGenerate | src/oscore/coap2oscore.c:244-304 | the buffer of the computed length is filled exactly with flag byte, PIV, KID context with its length, and KID |
| OscoreOption.EncodedLen | src/oscore/coap2oscore.c:213-228 | the 8-bit length computation gives the length of the option value, which is at most 22 |
| OscoreOption.OscoreOptionParser | src/oscore/oscore2coap.c:38-135 | all options are inspected, the last OSCORE option wins, and its value is split or rejected |
| OscoreOption.ValueRoundTrip | src/oscore/oscore2coap.c:66-128 | the parser recovers PIV, KID context and KID from the generated value |
| OscoreOption.FindInserted | src/oscore/oscore2coap.c:49-132 | the inserted option is the one the receiver finds |
| Nonce.SenderSeqNum2Piv | src/oscore/security_context.c:242-260 | the bytes of the number up to its last non-zero byte in memory, one zero byte for zero, failure beyond five bytes |
| Nonce.PivIsShortest | src/oscore/security_context.c:242-260 | little-endian: the PIV is the shortest encoding of the number and has its value; creation fails exactly from 2^40 |
| Nonce.BigEndianPivIff | src/oscore/security_context.c:242-260 | big-endian: a PIV can be created if and only if the number is a multiple of 2^24 |
| Nonce.CreateNonce | src/oscore/nonce.c:21-51 | in the buffer: size byte, padded ID and padded PIV, xored with the Common IV |
| Nonce.NonceBytes | src/oscore/nonce.c:21-51 | where each byte of the nonce comes from: size of the ID, ID up to byte 7, PIV up to byte 12, the bare IV in front of both |
| Nonce.NonceEqualIff | src/oscore/nonce.c:21-51 | with one Common IV, nonces are equal if and only if the IDs are equal and the zero-padded PIVs are equal |
| Nonce.NonceRepeatsIff | src/oscore/nonce.c:24-46 | little-endian: two numbers below 2^40 share a nonce if and only if one is the other times a power of 256 |
| Nonce.NetworkNonceInjective | src/oscore/nonce.c:24-46 | with PIVs in network byte order, nonces are equal if and only if the numbers are |
| Cose.CreateAad | src/oscore/aad.c:23-61 | associated data without class I options, or failure when it exceeds the length left by the previous one |
| Cose.AadLen | src/oscore/aad.c:23-61 | the associated data has 7 bytes plus those of KID and PIV |
| Cose.AadBytes | src/oscore/aad.c:23-61 | the associated data byte for byte: array of five, version 1, algorithm 10, KID, PIV, no class I options |
| Cose.AadInjective | src/oscore/aad.c:23-61 | associated data are equal if and only if KIDs and PIVs are |
| Cose.EncStructureBytes | src/oscore/oscore_cose.c:34-58 | the structure that the AEAD authenticates byte for byte: array of three, "Encrypt0", an empty string, the external AAD |
| Cose.EncStructureFits | src/oscore/oscore_cose.c:26-58 | the constant overhead is enough for every associated data that passes the size check |
| Cose.DecryptEncrypt | src/oscore/oscore_cose.c:60-119 | decryption inverts encryption under equal nonce, associated data and key, and the ciphertext is 8 bytes longer |
| Hkdf.HkdfExpandMbedtls | src/common/crypto_wrapper.c:400-478 | the buffer loop writes exactly the first out_len bytes of T(1), T(2), ... of section 2.3 of RFC 5869, or fails beyond 255 blocks or an oversized info; within 31 of 2^32 the output stays as it was |
| Hkdf.OkmByte | src/common/crypto_wrapper.c:451-472 | each output byte is that of the HMAC over the previous block, info and the block number |
| Hkdf.ExpandOutcome | src/common/crypto_wrapper.c:400-440 | all outcomes: failure beyond 8160 bytes or an info above 1167, otherwise the output |
| Hkdf.HkdfExpandTinycrypt | src/common/crypto_wrapper.c:400-433 | the loop with a byte counter ends and writes the same bytes, or fails beyond 255 blocks, for every length but those of 255 blocks |
| Hkdf.ByteCounterEnds | src/common/crypto_wrapper.c:417-417 | the byte counter exceeds the block count at some step if and only if there are fewer than 255 blocks |
| SecurityContext.Context.Init | src/oscore/security_context.c:156-239 | a successful initialisation leaves the derived keys and IV, sequence number 0, a zero window and the identifiers of the device type |
| SecurityContext.InitConsistent | src/oscore/security_context.c:156-203 | after initialisation IV and keys are the ones derived from secret, salt, ID context and IDs |
| Derivation.InfoReads | src/oscore/oscore_hkdf_info.c:41-93 | read with the CBOR readers an info structure is an array of five: ID, ID context or nil, 10, "Key" or "IV", 16 or 13 |
| Derivation.InfoInjective | src/oscore/oscore_hkdf_info.c:41-93 | info structures are equal if and only if IDs, ID contexts and types are |
| Derivation.InitComesFrom | src/oscore/security_context.c:38-104 | after initialisation IV and keys are the first bytes of HMACs, under the HMAC of the secret keyed with the salt or 32 zeros, of info structures with the ID context and each ID, and a byte 1 |
| Derivation.InitSucceedsIff | src/oscore/security_context.c:156-239 | initialisation succeeds if and only if the algorithms are supported and IDs and ID context stay within literal bounds |
| SecurityContext.Context.ContextUpdateServer | src/oscore/security_context.c:106-154 | the whole new context after a received request, for every exit, failed copies included |
| SecurityContext.Context.RefreshNonceAndAad | src/oscore/security_context.c:145-153 | new nonce from KID, PIV and IV, and new associated data when it fits |
| SecurityContext.Context.RederiveKeys | src/oscore/security_context.c:140-142 | IV, sender key and recipient key derived again in this order, up to the first failure |
| SecurityContext.RederiveConsistent | src/oscore/security_context.c:119-143 | taking over an ID context that is not longer always succeeds and leaves all keys consistent with it |
| SecurityContext.UpdateConsistent | src/oscore/security_context.c:106-154 | every update, accepted or rejected, leaves keys and IV consistent, and only a size can make it fail |
| Protect.PlaintextSetup | src/oscore/coap2oscore.c:136-184 | code, options and payload in the plaintext buffer, cut to the predicted length, or the failing size check |
| Protect.SetupPlaintextCases | src/oscore/coap2oscore.c:166-181 | too short a prediction is rejected, except when it is short by exactly payload and marker, when the payload is dropped |
| Protect.PlaintextOutcome | src/oscore/coap2oscore.c:441-463 | for every ordered option list the plaintext is right, loses its payload, or is rejected, by the shortfall of the prediction and the two buffer sizes |
| Protect.PlaintextFaithfulIff | src/oscore/coap2oscore.c:441-463 | the plaintext is code, E options and payload if and only if every E option is well-sized and both buffers suffice |
| Protect.ThirteensDecide | src/oscore/coap2oscore.c:441-463 | with class E options only, within the buffers: code, options and payload when no delta and no length is 13, and rejection otherwise, unless the thirteens are as many as payload and marker have bytes |
| Protect.PrepareRequestContext | src/oscore/coap2oscore.c:472-490 | the sequence number is consumed whatever follows; then PIV, nonce, associated data and option value |
| Protect.Coap2Oscore | src/oscore/coap2oscore.c:407-514 | result and new context of the whole call, for every exit |
| Success.RequestSucceedsIff | src/oscore/coap2oscore.c:407-514 | a request is protected if and only if plaintext and E options fit, the prediction has no shortfall or that of just payload and marker, the next number has a PIV, KID and PIV have at most 7 bytes together and fit the AAD left, and option buffer and output buffer suffice |
| Success.ResponseSucceedsIff | src/oscore/coap2oscore.c:407-514 | the same for a response, where the stored AAD has at most 14 bytes |
| Protect.NextValueIs | src/oscore/coap2oscore.c:472-490 | the OSCORE option value of a request is known before the call: next PIV, KID and KID context |
| Unprotect.AcceptRequestContext | src/oscore/oscore2coap.c:588-612 | KID check, replay check and context update of a received request |
| Unprotect.RebuildPacket | src/oscore/oscore2coap.c:441-484 | the packet from the outer header, the decrypted code, the merged options and the payload |
| Unprotect.Oscore2Coap | src/oscore/oscore2coap.c:562-646 | result and new context of the whole call; the window changes only after a request decrypts |
| Opening.OutputWasOpened | src/oscore/oscore2coap.c:562-646 | for any bytes and any context: what is output was opened by the AEAD under recipient key, nonce and AAD of the context, for a request those of its own PIV after its KID was checked; the output has the packet's framing and the code that stood first in the plaintext |
| Opening.InnerOptionsBound | src/oscore/oscore2coap.c:383-432 | a plaintext with more than ten options is refused |
| Opening.WindowNotesOpened | src/oscore/oscore2coap.c:625-633 | the window changes only for a request that the AEAD opens, and then by the first byte of its PIV |
| Opening.RefusedIsRejected | src/oscore/oscore2coap.c:622-646 | if the AEAD refuses the payload there is no CoAP output and the window stays as it was |
| Opening.PassedOverIff | src/oscore/oscore2coap.c:578-586 | a packet is passed over if and only if it can be read and has no option numbered 9, and the context does not change then |
| Opening.ProtectedFraming | src/oscore/coap2oscore.c:424-514 | whatever is output has version, type, token and message ID of the packet; an empty acknowledgement is unchanged, requests become POST and responses 2.04 |
| Opening.EmptyAckPasses | src/oscore/coap2oscore.c:424-432 | an empty acknowledgement that fits is passed on without touching the context |
| RoundTrip.OuterRoundTrip | src/oscore/coap2oscore.c:506-513 | the receiver's parser recovers the OSCORE packet from its bytes |
| RoundTrip.InsideRoundTrip | src/oscore/oscore2coap.c:383-432 | the decrypted payload reads back as the code, the E options and the payload |
| RoundTrip.RebuildRestores | src/oscore/oscore2coap.c:441-484 | rebuilding from outer packet and plaintext serializes the original packet |
| RoundTrip.WithOscoreOrdered | src/oscore/coap2oscore.c:344-386 | the OSCORE option is inserted where it keeps the option numbers in order |
| RoundTrip.SampleSurvives | src/oscore/coap2oscore.c:407-514 | the conditions of the round trip can be met: they hold of a GET with path and payload |
| Session.RequestRoundTrip | src/oscore/oscore2coap.c:562-646 | for matched contexts and every request that meets the conditions, which can be checked before the call, the server outputs exactly the packet the client protected, both then hold equal nonce, AAD, PIV, keys and IV, and the window has noted the first PIV byte |
| Session.ResponseRoundTrip | src/oscore/coap2oscore.c:492-504 | a client in step with the server outputs exactly the packet the server protected, and neither context changes |
| Session.FirstRequestArrives | src/oscore/oscore2coap.c:562-646 | with any secret and salt the first request of a freshly initialised client reaches a freshly initialised server byte for byte, so the premises of the round trip are satisfiable |
| Session.InitPeered | src/oscore/security_context.c:156-239 | contexts initialised from mirrored parameters are matched |
| Session.UpdateOutcome | src/oscore/security_context.c:106-154 | a KID context not longer than the server's own is taken over with keys and nonce for it, and the update succeeds if and only if the AAD for the PIV fits what the last one left |
| Session.AcceptOutcome | src/oscore/oscore2coap.c:588-612 | a request with the client's identifiers is accepted by a matched server if and only if the AAD for its PIV fits; afterwards both hold the same keys, IV and nonce |
| Session.ReplayedRequestIsRestored | src/oscore/oscore2coap.c:562-646 | the very same bytes a second time: the server outputs the same packet again, and notes the number again |
| Session.MarkerNumberNeverSurvives | src/oscore/oscore_coap.c:259-302 | no request with sequence number 255 meets the conditions of the round trip |
| Session.MarkerNumberIsMisread | src/oscore/oscore_coap.c:222-305 | the receiver's parser does not recover the OSCORE packet of any request with sequence number 255 |
| Network.RunInvariant | src/oscore/coap2oscore.c:472-504 | over every run in which any earlier message may be delivered late, reordered, repeatedly or never, the contexts stay matched, every message carries its packet, and each side holds nonce and AAD of the request it prepared or accepted last |
| Network.RequestDeliveryIff | src/oscore/oscore2coap.c:562-646 | in every such run, from any matched contexts, delivering any earlier request gives exactly the protected packet if and only if its AAD fits the server's, and an error otherwise |
| Network.ResponseDelivery | src/oscore/oscore2coap.c:562-646 | a response made after the server accepted request k is restored exactly whenever the client still holds that request's nonce and AAD, as it does while k is the last one it prepared |
| Network.EveryDeliveryRestores | src/oscore/oscore2coap.c:562-646 | between freshly initialised parties every delivery of every request restores it, however late, in whatever order and however often, on either byte order |
| Network.WindowThroughout | src/oscore/oscore2coap.c:541-560 | in every run the server's window is its initial one updated with the first PIV bytes of the accepted requests in the order of their acceptance |
| ContextRuns.KeysAlwaysConsistent | src/oscore/security_context.c:106-203 | in every state reachable from initialisation by any calls with any bytes, IV and keys are those derived from the current secret, salt, ID context and IDs |
| Sealing.RunKeysComeFrom | src/oscore/security_context.c:106-203 | in every state reachable by any calls with any bytes IV and keys come, by HMAC, from the initial secret, salt and IDs and the ID context of that moment |
| ContextRuns.NumbersCountUp | src/oscore/coap2oscore.c:472-478 | over every sequence of calls the i-th consumed sequence number is the initial one plus i in 64 bits, whether or not later steps fail |
| ContextRuns.NumbersIncrease | src/oscore/coap2oscore.c:472-478 | the consumed numbers strictly increase while the 64-bit counter does not wrap |
| ContextRuns.NoPivNoMessage | src/oscore/security_context.c:242-260 | from 2^40 on a request fails and no message results |
| ContextRuns.PrepareIff | src/oscore/aad.c:53-58 | a request can be prepared if and only if its number is below 256, because the AAD length shrinks to that of the first one |
| ContextRuns.PreparedNoncesDiffer | src/oscore/coap2oscore.c:472-478 | of the numbers that an initialised context consumes exactly the first 256 lead to a prepared request, and the nonces of the prepared requests are pairwise different; later numbers still make nonces, see Sealing |
| Sealing.OutputIsSealed | src/oscore/coap2oscore.c:498-513 | whatever is output encrypted is the written packet around the AEAD output for the recorded key, nonce, AAD and plaintext |
| Sealing.EverySealFollows | src/oscore/security_context.c:106-154 | client or server, any calls, any bytes: each encryption takes its key from the current ID context, and its nonce from that and the PIV last prepared or let in, failing calls included |
| Sealing.NoncesCoincideIff | src/oscore/nonce.c:21-51 | over every run of calls two encryptions under one ID context have the same key, and the same nonce if and only if their left-padded PIVs are equal |
| Sealing.NumberedNoncesCoincideIff | src/oscore/nonce.c:24-46 | if those PIVs encode the numbers m and n below 2^40, the nonces are equal if and only if m and n differ by whole low-order zero bytes; for a server these are the numbers of the requests it answers |
| Sealing.ClientHoldsLastNonce | src/oscore/security_context.c:145-153 | once an initialised little-endian client has consumed a number, its nonce is that of the last number below 2^40, whether or not that call succeeded |
| Sealing.ClientNoncesCoincideIff | src/oscore/coap2oscore.c:472-504 | two encryptions of such a client share key and nonce if and only if the numbers consumed last before them differ by whole low-order zero bytes, equal ones included |
| Sealing.RequestNonceIsNew | src/oscore/coap2oscore.c:472-504 | the nonce of an encrypted request differs from those of all encryptions before it, so only responses reuse one |
| Sealing.ClientReusesNonce | src/oscore/coap2oscore.c:492-504 | a concrete client that sends a request and then a response encrypts two plaintexts under one key, nonce and AAD |
| Sealing.ServerReusesNonce | src/oscore/coap2oscore.c:492-504 | a concrete server that answers one received request twice does the same |
| Freshness.IncreasingIsFresh | src/oscore/oscore2coap.c:495-560 | strictly increasing numbers meet the condition under which shipped and guarded receivers agree |
| Freshness.WindowRemembersDelivered | src/oscore/oscore2coap.c:588-633 | over every run between initialised parties, repeated and reordered deliveries included, an effective guard would have accepted the same requests and kept the same window if and only if the accepted numbers were fresh, and then the window holds the 32 largest of the zeros and these numbers |
| Freshness.InOrderIsFresh | src/oscore/oscore2coap.c:588-633 | little-endian: the noted bytes are the sequence numbers of the accepted requests, and requests accepted at most once and in the order of sending are fresh |
| Crypto.LawsAreConsistent | src/common/crypto_wrapper.c:174-341 | the laws assumed of the primitives have a model, with public keys of the usual sizes |
| Cbor.ReadHeadAt | cddl_models/edhoc_primitive_types.cddl:11-13 | a CBOR head is decoded to its kind and argument wherever it stands |
| Cbor.HeadBytes | cddl_models/edhoc_primitive_types.cddl:11-13 | the bytes of every head below 2^32, section 3.1 of RFC 8949 |
| Cbor.ReadIntIff | cddl_models/edhoc_primitive_types.cddl:11-13 | integers are accepted exactly within 32 bits with sign |
| Cbor.BstrPrefixUnique | cddl_models/edhoc_th.cddl:11-15 | a byte string in front of anything determines both the string and the rest |
| Suites.SelectedSuiteIsSupported | src/edhoc/responder.c:123-131 | true if and only if the selected suite is among the supported ones |
| Suites.SuiteTable | src/edhoc/suites.c:16-63 | exactly the suites 0 to 3, with their tag and MAC lengths and their curve and signature algorithms |
| KeySchedule.OkmInto | src/edhoc/okm.c:22-36 | keying material in the output buffer from transcript hash, label, context and length |
| KeySchedule.OkmInfoReads | src/edhoc/hkdf_info.c:22-46 | an info structure reads back as transcript hash, label, context and length |
| KeySchedule.OkmIsDrawn | src/edhoc/okm.c:22-36 | keying material is expanded from such an info structure; up to 32 bytes of it are the first bytes of an HMAC over that and a byte 1 |
| KeySchedule.OkmOutcome | src/edhoc/okm.c:22-36 | all outcomes by the lengths of info structure and output |
| KeySchedule.PrkAgrees | src/edhoc/prk.c:23-42 | both holders of key pairs derive the same key, each from the other's public key, in either authentication type |
| Transcript.NextInputFits | src/edhoc/th.c:168-196 | the size checks of th3 and th4 are enough for the encoded input |
| Transcript.HashesExistIff | src/edhoc/th.c:38-196 | TH_2 exists exactly up to 297 bytes of input, TH_3 and TH_4 up to 644 bytes of ciphertext |
| Transcript.TranscriptBinding | src/edhoc/th.c:38-196 | unless two of the hashed strings collide, TH_4 values are equal if and only if message_1, G_Y, C_R, CIPHERTEXT_2 and CIPHERTEXT_3 are |
| Identity.ReadIdCredAt | src/edhoc/plaintext_decode.c:36-73 | an encoded ID_CRED_x is decoded to its form and contents, and is neither a byte string nor an integer |
| Identity.IdCredBytes | src/edhoc/plaintext_decode.c:36-73 | the three forms byte for byte: a map of one entry labelled 4, 33 or 34 |
| Identity.PlaintextRoundTrip | src/edhoc/plaintext_decode.c:75-142 | splitting a plaintext gives back ID_CRED_x in all three forms, signature or MAC, and EAD sent as one byte string |
| Identity.PlaintextOutcome | src/edhoc/ciphertext.c:204-255 | a plaintext is the identifier as conveyed, the signature or MAC as byte string, and EAD; it is refused exactly above 126 bytes of signature or MAC or 650 in all |
| Identity.SplitOutcome | src/edhoc/plaintext_decode.c:75-142 | splitting refuses exactly identifiers above 600 bytes, signatures or MACs above 128 and EAD above the caller's buffer |
| Identity.ConveyedIs | src/edhoc/plaintext_encode.c:27-70 | a key identifier travels as its bare integer, every other ID_CRED_x as the map |
| Identity.GetLocalCred | src/edhoc/retrieve_cred.c:98-143 | the first credential with the identifier, with the key of the authentication type; not found if and only if none has it |
| Identity.PeerOutcome | src/edhoc/retrieve_cred.c:98-143 | an entry can be used exactly with a credential of at most 600 bytes and a key of at most 65 |
| Identity.NormalisedIs | src/edhoc/retrieve_cred.c:115-131 | an uncompressed point is cut to 33 bytes that begin with 2, shorter keys stay as they are |
| Identity.Retrieve | src/edhoc/retrieve_cred.c:145-207 | local lookup for kid and x5t, the verified certificate's key for x5chain |
| Identity.CertifiedOutcome | src/edhoc/retrieve_cred.c:47-96 | all outcomes for a certificate: its size, its verification, the size of its key |
| SignatureOrMac.MacInto | src/edhoc/signature_or_mac_msg.c:60-92 | the MAC over ID_CRED, CRED and EAD concatenated in a buffer |
| SignatureOrMac.GenerateSignatureOrMac | src/edhoc/signature_or_mac_msg.c:128-164 | the MAC for static DH, otherwise the signature over the structure with it |
| SignatureOrMac.VerifySignatureOrMac | src/edhoc/signature_or_mac_msg.c:165-204 | comparison or signature verification with the error of each |
| SignatureOrMac.SignatureStructReads | src/edhoc/signature_or_mac_msg.c:94-126 | what is signed reads back as an array of four: "Signature1", ID_CRED, TH in front of CRED and EAD, and the MAC |
| SignatureOrMac.MacOutcome | src/edhoc/signature_or_mac_msg.c:60-92 | the MAC can be computed exactly for an info structure of at most 1167 bytes; the error depends on the size of its context |
| SignatureOrMac.SignatureStructOutcome | src/edhoc/signature_or_mac_msg.c:94-126 | the structure can be made exactly within 888 bytes of external AAD and 1200 bytes in all, with the error of each |
| SignatureOrMac.VerifiedProves | src/edhoc/signature_or_mac_msg.c:165-204 | what is accepted is a prefix of a MAC drawn from PRK and TH over ID_CRED, CRED and EAD, or a signature that the library accepts under that key for a structure with these members |
| SignatureOrMac.GeneratedIsGenuine | src/edhoc/signature_or_mac_msg.c:128-164 | what is sent is such a MAC of the suite's length, or the signature of such a structure |
| SignatureOrMac.VerifyAccepts | src/edhoc/signature_or_mac_msg.c:128-204 | verification accepts what was generated over the same claim with the matching key |
| SignatureOrMac.MacAcceptedIff | src/edhoc/signature_or_mac_msg.c:165-182 | for static DH a received value is accepted if and only if the MAC can be computed and the value is a prefix of it, the empty one included; among values of full length only the MAC |
| Ciphertext.XorArrays | src/edhoc/ciphertext.c:33-39 | the bytewise exclusive or of two buffers |
| Common.XorBit | src/edhoc/ciphertext.c:33-39 | each bit of an exclusive or is the sum of the two bits |
| Ciphertext.WritePlaintext | src/edhoc/ciphertext.c:204-255 | the plaintext assembled in its buffer with a running length |
| Ciphertext.Plaintext4Outcome | src/edhoc/ciphertext.c:204-255 | the plaintext of message 4 is EAD_4, refused above 650 bytes |
| Ciphertext.GenerateCiphertext | src/edhoc/ciphertext.c:196-300 | ciphertext 2, 3 or 4, or the failing size check |
| Ciphertext.OpenCiphertext | src/edhoc/ciphertext.c:126-194 | decryption and split, or the failing step |
| Ciphertext.CiphertextIs | src/edhoc/ciphertext.c:93-124 | ciphertext 2 is the plaintext under a keystream drawn with its label; 3 and 4 are sealed under key and IV drawn with theirs, with TH as external AAD |
| Ciphertext.CiphertextIff | src/edhoc/ciphertext.c:196-300 | a ciphertext can be made if and only if its plaintext can, and text and tag stay within 650 bytes |
| Ciphertext.SplitWasDeciphered | src/edhoc/ciphertext.c:126-194 | whatever is split was deciphered under such keys, by the AEAD for ciphertexts 3 and 4 |
| Ciphertext.CiphertextRoundTrip | src/edhoc/ciphertext.c:126-300 | with equal PRK and transcript hash the receiver gets back ID_CRED_x, signature or MAC, and EAD; for ciphertext 4 EAD alone |
| Messages.Message1RoundTrip | src/edhoc/responder.c:54-114 | parsing an encoded message 1 gives back method, suites, G_X and EAD_1, with the exact refusals: more than five suites, or more than the buffers hold |
| Messages.Message1Iff | src/edhoc/initiator.c:78-131 | message 1 can be made exactly with one to ten suites and up to 255 bytes |
| Messages.Message2RoundTrip | src/edhoc/initiator.c:46-76 | parsing an encoded message 2 gives back G_Y, C_R and the ciphertext if and only if G_Y has the length of the suite and a byte-string C_R has at most one byte |
| Messages.Message2Iff | src/edhoc/responder.c:148-182 | message 2 can be made exactly up to 683 bytes of G_Y and ciphertext and 700 in all |
| Messages.ByteStringRoundTrip | src/edhoc/signature_or_mac_msg.c:31-58 | a byte string survives encoding and decoding, or exceeds the decoder's buffer |
| Messages.ByteStringIff | src/edhoc/signature_or_mac_msg.c:31-43 | encoding succeeds exactly when head and string fit |
| Handshake.RuntimeContext.GenerateMsg1 | src/edhoc/initiator.c:78-131 | message 1 in the runtime context |
| Handshake.RuntimeContext.GenerateMsg2 | src/edhoc/responder.c:184-270 | message 2, suite, PRK_3e2m, TH_3 and the initiator's authentication type in the runtime context, and EAD_1 |
| Handshake.RuntimeContext.GenerateMsg3 | src/edhoc/initiator.c:133-269 | message 3 after message 2 has been verified, with PRK_4x3m, TH_4 and EAD_2 |
| Handshake.RuntimeContext.ProcessMsg3 | src/edhoc/responder.c:272-335 | PRK_4x3m, TH_4 and EAD_3 after message 3 has been verified |
| Handshake.RuntimeContext.GenerateMsg4 | src/edhoc/responder.c:337-354 | message 4 in the runtime context |
| Handshake.RuntimeContext.ProcessMsg4 | src/edhoc/initiator.c:271-288 | EAD_4 out of message 4 |
| Agreement.RunContexts | src/edhoc/initiator.c:290-319 | both runs on two runtime contexts with messages delivered as sent |
| Agreement.LocalCredentialIsKnown | src/edhoc/retrieve_cred.c:98-143 | a kid or x5t credential in the other party's array, first of its name, is found with the matching key |
| Agreement.CertifiedCredentialIsKnown | src/edhoc/retrieve_cred.c:47-96 | a certificate that the other party verifies, within the buffers, is known to it with the key it was verified for, so the agreement covers x5chain |
| Agreement.RespondSucceeds | src/edhoc/responder.c:219-269 | for compatible parties message 2 can be made, within all buffers |
| Agreement.Process2Succeeds | src/edhoc/initiator.c:162-231 | the initiator accepts that message 2 and arrives at the responder's PRK_3e2m and TH_3 |
| Agreement.Message3Agrees | src/edhoc/responder.c:272-335 | message 3 can be made, and the responder accepts it and arrives at the initiator's PRK_4x3m and TH_4 |
| Agreement.Message4Agrees | src/edhoc/initiator.c:271-288 | message 4 can be made and decrypts to the EAD_4 that was sent |
| Agreement.EdhocAgreement | src/edhoc/initiator.c:133-319 | for every method, suite, key set and credentials within the buffers, both parties return ok with the selected suite, equal PRK_4x3m and TH_4, EAD_1 delivered and message 4 decrypted |
| Methods.ProvisionedPartiesAgree | src/edhoc/initiator.c:133-319 | two parties that own and have provisioned just the signature or static DH keys of their method agree on suite, PRK_4x3m and TH_4, for every method number, suite, key and kid or x5t credential within the buffers |
| Methods.SizedKeysExist | src/common/crypto_wrapper.c:174-341 | primitives exist that obey the laws and give public keys of the sizes of every suite, so these premises are satisfiable |
| Methods.Message2ByMethod | src/edhoc/responder.c:184-270 | a responder that answers was asked for a method from 0 to 3 and one of its suites; with 0 and 2 it sends a 64-byte signature and PRK_3e2m is PRK_2e, with 1 and 3 a MAC of the suite's length and PRK_3e2m is an HMAC with its static DH secret; all parts of message 2 follow |
| Methods.Message1Is | src/edhoc/initiator.c:78-131 | message 1 is method, suites, G_X, C_I and EAD_1: a single suite as an integer, several as an array, EAD_1 only when there is one |
| Methods.Message3ByMethod | src/edhoc/initiator.c:133-269 | the same for message 3 with methods 0 and 1 against 2 and 3, PRK_4x3m and TH_4 |
| Authentication.InitiatorAuthenticates | src/edhoc/initiator.c:133-269 | an initiator that sends message 3, whatever it received, found in message 2 the identifier of a trusted credential and, by method number, a signature that the library accepts under its key, or a prefix of the MAC under a PRK_3e2m from its static DH key, over ID_CRED_R, TH_2, CRED_R and EAD_2 |
| Authentication.MacNames | src/edhoc/initiator.c:222-226 | the labels of the two MACs byte for byte |
| Authentication.NoSignatureNoMessage3 | src/edhoc/initiator.c:222-226 | with methods 0 and 2 no message 3 is made if the library accepts no signature under any trusted key |
| Authentication.ResponderAuthenticates | src/edhoc/responder.c:272-335 | a responder that accepts message 3, whatever it received, opened it with the AEAD and found the same about the initiator |
| Authentication.NoSignatureNoSession | src/edhoc/responder.c:312-330 | a responder that expects a signature refuses message 3 if the library accepts none under any trusted key |
| Authentication.Message4WasOpened | src/edhoc/initiator.c:271-288 | EAD_4 only comes out of a message 4 that the AEAD opens under K_4 and IV_4 |
| Authentication.RetrievedIsTrusted | src/edhoc/retrieve_cred.c:98-207 | a retrieved credential and key stand in the local array under that ID_CRED, or are a certificate and the key it was verified for |
| Matching.InitiatorHashes | src/edhoc/initiator.c:181-267 | the initiator's TH_4 is the hash of the transcript it saw, whatever it received |
| Matching.ResponderHashes | src/edhoc/responder.c:219-334 | the responder's TH_4 is the hash of the transcript it saw, whatever it received |
| Matching.EqualTh4EqualMessages | src/edhoc/th.c:151-196 | whatever the network delivered, two parties that finish have equal TH_4 if and only if they hold equal message_1, G_Y, C_R, CIPHERTEXT_2 and CIPHERTEXT_3, unless hashed strings collide |

## Left out

- Network.RunInvariant: messages are delivered unchanged; forged ones appear only in ContextRuns, Sealing and Matching.
- Network.RequestDeliveryIff: the conditions on packets (`RoundTrip.Survives`) are proved sufficient; each is the exact condition of its stage, but for the whole transform necessity cannot be had from uninterpreted encryption. A packet that does not meet them counts as lost.
- Network.ResponseDelivery: what a client makes of a response to an earlier request is open, because nothing says that decryption under another nonce fails.
- Protect.Coap2Oscore: an EMPTY acknowledgement is copied without looking at the size of the output buffer; here too small a buffer is `Undefined`.
- CoapPacket.Buf2Coap: the option count, which the code leaves unset when nothing follows the token, starts at 0; the one-byte read behind a buffer that ends without a marker is not modelled.
- CoapOption.ParseOptions: option values are copies, not pointers into the received packet.
- OscoreOption.OscoreOptionParser: fields that reach beyond the option value are `Undefined` here, although the C code would read on inside the packet.
- SecurityContext.Context.Init: on failure only the error is stated, not the partly filled context; buffers that initialisation does not fill are zero.
- SecurityContext.Context.ContextUpdateServer: the ID context is a value; that its buffer belongs to the caller is not modelled.
- Cose.CreateAad: a failed encoding leaves the old bytes, where the C buffer may hold a partial new encoding.
- Nonce.CreateNonce: the identifier has at most 7 bytes and the PIV at most 5, as the context buffers guarantee.
- Hkdf.HkdfExpandTinycrypt: lengths of 255 blocks are excluded, because the loop does not end for them.
- KeySchedule.OkmInto: `OkmCalc` and `Exporter` are not defined for lengths within 31 of 2^32, for which the method writes nothing.
- Identity.Retrieve: certificates are a function from certificate to key, so the X.509 and C509 code of src/edhoc/cert.c is not part of this model; x5bag, x5u, c5b, c5c, c5t and c5u, text algorithm names and maps with several entries are treated as malformed.
- Suites.SelectedSuiteIsSupported: fewer than 256 supported suites, because the loop counts in a byte.
- SignatureOrMac.VerifySignatureOrMac: comparing beyond the MAC that was computed is `Undefined`.
- KeySchedule.PrkAgrees: keys that the crypto library refuses are a single error.
- Agreement.EdhocAgreement: EAD_2 and EAD_3 are empty, because the sender authenticates the raw bytes and the receiver the decoded ones; credentials are bounded by the buffers that both parties share.
- Handshake.RuntimeContext.GenerateMsg2: on failure only the error is stated, not the fields written before it; the error message exchange is commented out in the source.
- Handshake.RuntimeContext.GenerateMsg3: on failure only the error is stated, and that no other field than the message and the suite changes.
- `encode_options` for class E is never called; for class I it writes nothing.
- tx and rx callbacks, debug printing, key generation, samples, and the other buffer-size presets.
- The crypto back-ends (AEAD, signatures, hash, DH, HMAC) and the generated CBOR code: laws and the CBOR grammar stand in for them.
