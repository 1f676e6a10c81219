/** The signed transaction container and every route by which one comes to exist. */
module Cosmos {
  import opened Wrappers
  import opened Bytes
  import opened Rlp
  import opened Crypto
  import opened Authorization
  import opened Canonical
  import opened SignDocument
  import opened TxTypes

  /** The two scalars of a signature and a parity that is always false here. */
  datatype Scalars = Scalars(r: U256, s: U256, v: bool)

  datatype CosmosSigned = CosmosSigned(
    operation: Operation,
    publicKey: Buffer,
    signature: Scalars,
    hash: Bytes32,
    raw: Buffer)

  function ToScalars(signature: seq<Byte>): Scalars
    requires |signature| == 64
  {
    FromBEWidths(signature[..32], 32);
    FromBEWidths(signature[32..], 32);
    Scalars(FromBE(signature[..32]), FromBE(signature[32..]), false)
  }

  /** The first 64 bytes of a signature's byte form. */
  function SignatureBytes(signature: Scalars): (b: seq<Byte>)
    ensures |b| == 64
  {
    FixedBE(32, signature.r) + FixedBE(32, signature.s)
  }

  function New(crypto: Crypto, op: Operation, key: Buffer, signature: Buffer)
    : Result<CosmosSigned, AuthError>
  {
    if !WithinLimits(op) then Failure(Limit)
    else if |key| != 33 then Failure(PublicKey)
    else if |signature| != 64 then Failure(Signature)
    else
      WireWithinSizeLimit(op, key, signature);
      var raw := EncodeWire(op, key, signature);
      var (op', _, signature') :- DecodeWire(Strict, true, raw);
      Success(CosmosSigned(op', key, ToScalars(signature'), crypto.keccak(raw), raw))
  }

  /** What every construction route establishes and nothing can change afterwards: the cached
      bytes and hash are those of the fields. */
  ghost predicate Valid(crypto: Crypto, tx: CosmosSigned) {
    && WithinLimits(tx.operation)
    && |tx.publicKey| == 33
    && !tx.signature.v
    && tx.raw == EncodeWire(tx.operation, tx.publicKey, SignatureBytes(tx.signature))
    && tx.hash == crypto.keccak(tx.raw)
  }

  /** 64 signature bytes survive the detour through two 256-bit integers. */
  lemma ScalarsRoundTrip(signature: seq<Byte>)
    requires |signature| == 64
    ensures SignatureBytes(ToScalars(signature)) == signature
  {
    FixedFromBE(signature[..32]);
    FixedFromBE(signature[32..]);
    assert signature == signature[..32] + signature[32..];
  }

  lemma BytesRoundTrip(signature: Scalars)
    ensures ToScalars(SignatureBytes(signature)) == signature.(v := false)
  {
    Pow256Widths();
    FromFixedBE(32, signature.r);
    FromFixedBE(32, signature.s);
    hide FixedBE, FromBE;
    var b := SignatureBytes(signature);
    assert b[..32] == FixedBE(32, signature.r) && b[32..] == FixedBE(32, signature.s);
  }

  /** The constructor fails only on limits and lengths: its own decoding of what it just encoded
      never does. What it makes is valid and holds exactly what it was given. */
  lemma NewExact(crypto: Crypto, op: Operation, key: Buffer, signature: Buffer)
    ensures match New(crypto, op, key, signature)
            case Failure(e) =>
              e == if !WithinLimits(op) then Limit else if |key| != 33 then PublicKey else Signature
            case Success(tx) =>
              && Valid(crypto, tx) && |signature| == 64
              && tx.operation == op && tx.publicKey == key && SignatureBytes(tx.signature) == signature
    ensures New(crypto, op, key, signature).Success?
       <==> WithinLimits(op) && |key| == 33 && |signature| == 64
  {
    if WithinLimits(op) && |key| == 33 && |signature| == 64 {
      assert Framable(op, key, signature);
      hide EncodeWire, DecodeWire, SignatureBytes, ToScalars, WithinLimits;
      DecodeWireExact(Strict, EncodeWire(op, key, signature), op, key, signature);
      ScalarsRoundTrip(signature);
      ScalarsHaveNoParity(signature);
    }
  }

  lemma ScalarsHaveNoParity(signature: seq<Byte>)
    requires |signature| == 64
    ensures !ToScalars(signature).v
  {
  }

  /** The valid transactions are exactly the constructor's results. */
  lemma ValidIsNew(crypto: Crypto, tx: CosmosSigned)
    ensures Valid(crypto, tx)
       <==> New(crypto, tx.operation, tx.publicKey, SignatureBytes(tx.signature)) == Success(tx)
  {
    var signature := SignatureBytes(tx.signature);
    NewExact(crypto, tx.operation, tx.publicKey, signature);
    hide EncodeWire, DecodeWire, SignatureBytes, ToScalars, WithinLimits;
    if Valid(crypto, tx) {
      DecodeWireExact(Strict, tx.raw, tx.operation, tx.publicKey, signature);
      BytesRoundTrip(tx.signature);
    }
  }

  /** Decoding a wire encoding and handing the parts to the constructor gives back a transaction
      with exactly those cached bytes: its second validation cannot fail. */
  lemma NewAfterDecode(crypto: Crypto, raw: seq<Byte>)
    requires DecodeWire(Strict, true, raw).Success?
    ensures var (op, key, signature) := DecodeWire(Strict, true, raw).value;
            var r := New(crypto, op, key, signature);
            r.Success? && Valid(crypto, r.value) && r.value.raw == raw
  {
    var (op, key, signature) := DecodeWire(Strict, true, raw).value;
    DecodeWireExact(Strict, raw, op, key, signature);
    NewExact(crypto, op, key, signature);
  }

  function VerifyTx(crypto: Crypto, tx: CosmosSigned): Result<Bytes20, AuthError> {
    Verify(crypto, tx.operation, tx.publicKey, SignatureBytes(tx.signature), GENESIS_HASH)
  }

  /** A transaction of this chain whose stored scalars are a low-S ECDSA signature of its sign
      document, under a key of its sender. */
  ghost predicate IsSigned(crypto: Crypto, tx: CosmosSigned) {
    && WithinLimits(tx.operation) && InDomain(tx.operation, GENESIS_HASH)
    && KeyOf(crypto, tx.publicKey, tx.operation.sender)
    && 0 < tx.signature.r < ORDER && 0 < tx.signature.s && 2 * tx.signature.s < ORDER
    && crypto.signed(tx.publicKey, SignBytes(crypto, tx.operation), tx.signature.r, tx.signature.s)
  }

  /** The container verifies if and only if it is signed, and then as its sender's. */
  lemma VerifyTxExact(crypto: Crypto, tx: CosmosSigned, sender: Bytes20)
    ensures VerifyTx(crypto, tx) == Success(sender) <==> IsSigned(crypto, tx) && sender == tx.operation.sender
  {
    BytesRoundTrip(tx.signature);
    hide Verify, WithinLimits, InDomain, KeyOf, SignBytes, SignatureBytes, FromBE;
    VerifyExact(crypto, tx.operation, tx.publicKey, SignatureBytes(tx.signature), GENESIS_HASH, sender);
  }

  // ---------------------------------------------------------------- JSON record

  datatype Rpc = Rpc(
    txType: CosmosTxType,
    operation: Operation,
    publicKey: Buffer,
    cosmosSignature: Buffer,
    hash: Bytes32)

  datatype RpcError = Invalid(error: AuthError) | Mismatch

  function Serialize(tx: CosmosSigned): Rpc {
    Rpc(COSMOS, tx.operation, tx.publicKey, SignatureBytes(tx.signature), tx.hash)
  }

  function Deserialize(crypto: Crypto, rpc: Rpc): Result<CosmosSigned, RpcError> {
    match New(crypto, rpc.operation, rpc.publicKey, rpc.cosmosSignature)
    case Failure(e) => Failure(Invalid(e))
    case Success(tx) =>
      if rpc.txType != COSMOS || tx.hash != rpc.hash then Failure(Mismatch) else Success(tx)
  }

  /** The JSON records that are accepted are exactly those valid transactions write, and each is
      read as the transaction that wrote it: five fields of the record, each with its own part. */
  lemma DeserializeExact(crypto: Crypto, rpc: Rpc, tx: CosmosSigned)
    ensures Deserialize(crypto, rpc) == Success(tx)
       <==> && Valid(crypto, tx)
            && rpc.txType.ty == TX_TYPE && rpc.operation == tx.operation
            && rpc.publicKey == tx.publicKey && rpc.cosmosSignature == SignatureBytes(tx.signature)
            && rpc.hash == tx.hash
    ensures Deserialize(crypto, rpc) == Success(tx) <==> Valid(crypto, tx) && rpc == Serialize(tx)
  {
    NewExact(crypto, rpc.operation, rpc.publicKey, rpc.cosmosSignature);
    ValidIsNew(crypto, tx);
    hide New, Valid, SignatureBytes, WithinLimits;
  }

  // ---------------------------------------------------------------- fees

  function EffectiveGasPrice(maxFee: U128, maxPriorityFee: U128, baseFee: U64): nat {
    var tip := if maxFee >= baseFee then maxFee - baseFee else 0;
    if tip > maxPriorityFee then maxPriorityFee + baseFee else maxFee
  }
}
