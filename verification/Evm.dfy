/** From payload bytes to the environment a Cosmos transaction executes in. */
module Execution {
  import opened Wrappers
  import opened Bytes
  import opened Crypto
  import opened Authorization
  import opened Cosmos
  import opened Envelopes
  import opened SignDocument

  /** The fields of the EVM's transaction environment that the adapter sets. */
  datatype TxEnv = TxEnv(
    txType: Byte,
    caller: Bytes20,
    gasLimit: U64,
    gasPrice: U128,
    callee: Bytes20,
    value: U256,
    data: Buffer,
    nonce: U64,
    chainId: Option<U64>,
    gasPriorityFee: Option<U128>)

  /** `None` is the failed assertion that the caller is the signed sender. */
  function FromRecovered(tx: CosmosSigned, caller: Bytes20): Option<TxEnv> {
    var op := tx.operation;
    if caller != op.sender then None
    else
      Some(TxEnv(2, caller, op.gasLimit, op.maxFeePerGas, op.to, op.value, op.input, op.nonce,
                 Some(op.chainId), Some(op.maxPriorityFeePerGas)))
  }

  datatype ConvertError = NotDecoded | TrailingBytes | NotRecovered

  type EthereumRecovery = (RecoveryPath, EthereumTx) -> Result<Bytes20, RecoveryError>

  /** One payload transaction: decoded whole, recovered, paired with its signer. */
  function Convert(crypto: Crypto, eth: EthereumDecoder, legacy: EthereumFallback,
                   recovery: EthereumRecovery, path: RecoveryPath, bytes: seq<Byte>)
    : Result<(Transaction, Bytes20), ConvertError>
  {
    match Decode2718(crypto, eth, legacy, bytes)
    case Failure(_) => Failure(NotDecoded)
    case Success((tx, rest)) =>
      if rest != [] then Failure(TrailingBytes)
      else
        match Recover(crypto, recovery, path, tx)
        case Failure(_) => Failure(NotRecovered)
        case Success(signer) => Success((tx, signer))
  }

  lemma WholeDecodeExact(crypto: Crypto, eth: EthereumDecoder, legacy: EthereumFallback,
                         bytes: seq<Byte>, tx: CosmosSigned)
    requires bytes != [] && bytes[0] == TX_TYPE
    ensures Decode2718(crypto, eth, legacy, bytes) == Success((Cosmos(tx), []))
       <==> Valid(crypto, tx) && bytes == tx.raw
  {
    assert bytes == [TX_TYPE] + bytes[1..];
    assert tx.raw + [] == tx.raw;
    TypedDecodeExact(crypto, eth, bytes[1..], tx, []);
    hide TypedDecode, Valid;
  }

  /** A first byte of 0x7e makes every decoded transaction a Cosmos one. */
  lemma TypeByteDecides(crypto: Crypto, eth: EthereumDecoder, legacy: EthereumFallback,
                        bytes: seq<Byte>)
    requires bytes != [] && bytes[0] == TX_TYPE
    requires Decode2718(crypto, eth, legacy, bytes).Success?
    ensures Decode2718(crypto, eth, legacy, bytes).value.0.Cosmos?
  {
    hide DecodeFront;
  }

  lemma ConvertOfReads(crypto: Crypto, eth: EthereumDecoder, legacy: EthereumFallback,
                       recovery: EthereumRecovery, path: RecoveryPath, bytes: seq<Byte>,
                       tx: CosmosSigned, sender: Bytes20)
    ensures Convert(crypto, eth, legacy, recovery, path, bytes) == Success((Cosmos(tx), sender))
       <==> && Decode2718(crypto, eth, legacy, bytes) == Success((Cosmos(tx), []))
            && VerifyTx(crypto, tx) == Success(sender)
  {
    hide Decode2718, VerifyTx;
  }

  /** Payload bytes of type 0x7e convert, by any of the four recovery methods, if and only if they
      are the bytes of a valid transaction that is signed; and then the signer is its sender. */
  lemma ConvertExact(crypto: Crypto, eth: EthereumDecoder, legacy: EthereumFallback,
                     recovery: EthereumRecovery, path: RecoveryPath, bytes: seq<Byte>,
                     tx: CosmosSigned, signer: Bytes20)
    requires bytes != [] && bytes[0] == TX_TYPE
    ensures Convert(crypto, eth, legacy, recovery, path, bytes) == Success((Cosmos(tx), signer))
       <==> && Valid(crypto, tx) && bytes == tx.raw
            && IsSigned(crypto, tx) && signer == tx.operation.sender
  {
    hide *;
    ConvertOfReads(crypto, eth, legacy, recovery, path, bytes, tx, signer);
    WholeDecodeExact(crypto, eth, legacy, bytes, tx);
    VerifyTxExact(crypto, tx, signer);
  }

  /** All other payload bytes pass through: they convert exactly when the Ethereum decoder of their
      type, or the legacy one, consumes them whole and the Ethereum recovery of the same path
      names the signer. */
  lemma ConvertEthereum(crypto: Crypto, eth: EthereumDecoder, legacy: EthereumFallback,
                        recovery: EthereumRecovery, path: RecoveryPath, bytes: seq<Byte>,
                        tx: Transaction, signer: Bytes20)
    requires bytes == [] || bytes[0] != TX_TYPE
    ensures Convert(crypto, eth, legacy, recovery, path, bytes) == Success((tx, signer))
       <==> && tx.Ethereum? && recovery(path, tx.eth) == Success(signer)
            && (if bytes != [] && bytes[0] < 0x80 then eth(bytes[0], bytes[1..]) else legacy(bytes))
               == Success((tx.eth, []))
  {
    hide DecodeFront, VerifyTx;
    var read := if bytes != [] && bytes[0] < 0x80 then eth(bytes[0], bytes[1..]) else legacy(bytes);
    assert Decode2718(crypto, eth, legacy, bytes)
        == match read
           case Failure(e) => Failure(e)
           case Success((t, rest)) => Success((Ethereum(t), rest));
  }

  /** Authorized execution, for every payload transaction of type 0x7e: when conversion succeeds
      the caller assertion holds, and the environment carries the fields of the one operation whose
      wire encoding the payload bytes are and whose signature verifies for this chain. The gas limit
      and fees the envelope shows the pool and the builder are the ones it executes with. */
  lemma PayloadExecutesWhatWasSigned(crypto: Crypto, eth: EthereumDecoder, legacy: EthereumFallback,
                                     recovery: EthereumRecovery, path: RecoveryPath,
                                     bytes: seq<Byte>)
    requires bytes != [] && bytes[0] == TX_TYPE
    requires Convert(crypto, eth, legacy, recovery, path, bytes).Success?
    ensures var (tx, signer) := Convert(crypto, eth, legacy, recovery, path, bytes).value;
            && tx.Cosmos? && FromRecovered(tx.signed, signer).Some?
            && WithinLimits(tx.signed.operation) && |tx.signed.publicKey| == 33
            && bytes == EncodeWire(tx.signed.operation, tx.signed.publicKey,
                                   SignatureBytes(tx.signed.signature))
            && var env := FromRecovered(tx.signed, signer).value;
            && tx.signed.operation
            == Operation(CHAIN_ID, GENESIS_HASH, env.caller, env.nonce, env.callee, env.value, env.data,
                         env.gasLimit, env.gasPrice, env.gasPriorityFee.value)
            && env.txType == 2 && env.chainId == Some(CHAIN_ID)
            && KeyOf(crypto, tx.signed.publicKey, env.caller)
            && var (r, s) := (tx.signed.signature.r, tx.signed.signature.s);
            && 0 < r < ORDER && 0 < s && 2 * s < ORDER
            && crypto.signed(tx.signed.publicKey, SignBytes(crypto, tx.signed.operation), r, s)
            && tx.GasLimit() == env.gasLimit && tx.MaxFeePerGas() == env.gasPrice
            && tx.MaxPriorityFeePerGas() == env.gasPriorityFee && tx.Ty() == TX_TYPE
  {
    ConvertIsCosmos(crypto, eth, legacy, recovery, path, bytes);
    hide Convert, Valid, EncodeWire, SignatureBytes, SignBytes, KeyOf;
    var (tx, signer) := Convert(crypto, eth, legacy, recovery, path, bytes).value;
    ConvertExact(crypto, eth, legacy, recovery, path, bytes, tx.signed, signer);
    ValidFields(crypto, tx.signed);
  }

  lemma ConvertIsCosmos(crypto: Crypto, eth: EthereumDecoder, legacy: EthereumFallback,
                        recovery: EthereumRecovery, path: RecoveryPath, bytes: seq<Byte>)
    requires bytes != [] && bytes[0] == TX_TYPE
    requires Convert(crypto, eth, legacy, recovery, path, bytes).Success?
    ensures Convert(crypto, eth, legacy, recovery, path, bytes).value.0.Cosmos?
  {
    hide Decode2718, Recover;
    TypeByteDecides(crypto, eth, legacy, bytes);
  }

  lemma ValidFields(crypto: Crypto, tx: CosmosSigned)
    requires Valid(crypto, tx)
    ensures WithinLimits(tx.operation) && |tx.publicKey| == 33
    ensures tx.raw == EncodeWire(tx.operation, tx.publicKey, SignatureBytes(tx.signature))
  {
    hide EncodeWire, SignatureBytes;
  }
}
