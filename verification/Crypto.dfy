/** The hashes and curve operations the chain imports, as functions nothing is assumed about. */
module Crypto {
  import opened Bytes
  import Bech32

  datatype Crypto = Crypto(
    /** Keccak-256, which hashes a raw transaction. */
    keccak: seq<Byte> -> Bytes32,
    /** RIPEMD-160 of the SHA-256 of a public key. */
    account: seq<Byte> -> Bytes20,
    /** Whether the bytes parse as a SEC1 point of secp256k1. */
    onCurve: seq<Byte> -> bool,
    /** Whether (r, s) is an ECDSA signature under the key of the SHA-256 of the text. */
    signed: (seq<Byte>, string, nat, nat) -> bool,
    /** The Bech32 checksum of the data groups, under the `cosmos` prefix. */
    checksum: seq<Bech32.Group> -> Bech32.Checksum)

  /** The order of secp256k1. */
  const ORDER: int := 0xffffffff_ffffffff_ffffffff_fffffffe_baaedce6_af48a03b_bfd25e8c_d0364141
}
