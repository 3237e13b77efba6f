/** Transaction payloads, authorizations and envelopes, and the errors of the primitives crate. */
module Transactions {
  import opened Bytes

  /** A 256-bit integer held as 32 little-endian bytes. */
  type U256 = Root

  datatype FeesPerGas = FeesPerGas(regular: U256, maxPriorityFee: U256, maxWitnessPriorityFee: U256)

  datatype Payload =
    | Basic(chainId: U256, nonce: u64, gasLimit: u64, fees: FeesPerGas, to: Address,
            value: U256, input: seq<byte>, accessCommitment: Root)
    | Create(chainId: U256, nonce: u64, gasLimit: u64, fees: FeesPerGas,
             value: U256, initcode: seq<byte>, accessCommitment: Root)

  datatype Authorization = Authorization(schemeId: byte, payloadRoot: Root, signature: seq<byte>)

  datatype Envelope = Envelope(payload: Payload, authorizations: seq<Authorization>)

  datatype SigningData = SigningData(objectRoot: Root, domainType: Bytes4)

  const TAG_BASIC: byte := 0
  const TAG_CREATE: byte := 1

  function ProtocolTag(p: Payload): byte
  {
    match p
    case Basic(_, _, _, _, _, _, _, _) => TAG_BASIC
    case Create(_, _, _, _, _, _, _) => TAG_CREATE
  }

  datatype Malformed =
    | PayloadEmpty
    | TruncatedU64 | TruncatedU32 | TruncatedBytes32 | TruncatedAddress
    | BasicTooShort | BasicInputOffset | CreateTooShort | CreateInitcodeOffset
    | AuthorizationTooShort | AuthorizationSignatureOffset
    | ListOffsetExceedsU32 | ListFirstOffset | ListTableTooLong | ListElementOffset | ListNotMonotonic
    | EnvelopeTooShort | EnvelopePayloadOffset | EnvelopeAuthorizationsOffset | EnvelopeOffsetExceedsU32

  datatype PrimitiveError =
    | MalformedSsz(context: Malformed)
    | UnsupportedPayloadVariant(tag: byte)
    | PayloadRootMismatch(expected: Root, actual: Root)
    | AuthorizationCount(expectedAtLeast: nat, actualCount: nat)
    | SignatureSizeExceeded(maxBytes: nat, actualBytes: nat)
}
