/** Authorization as a consensus rule: every Cosmos member of a block verifies, pool or no pool. */
module Consensus {
  import opened Wrappers
  import opened Bytes
  import opened Crypto
  import opened Authorization
  import opened Cosmos
  import opened Envelopes

  datatype ConsensusError = TransactionSignerRecoveryError

  ghost predicate Authorized(crypto: Crypto, tx: Transaction) {
    tx.Cosmos? ==> IsSigned(crypto, tx.signed)
  }

  /** A block passes if and only if the node runs the verifier's genesis and every Cosmos member
      is signed by its sender. */
  method VerifyAuthorizations(crypto: Crypto, genesis: Bytes32, txs: seq<Transaction>)
    returns (r: Result<(), ConsensusError>)
    ensures r.Success?
       <==> genesis == GENESIS_HASH && forall i :: 0 <= i < |txs| ==> Authorized(crypto, txs[i])
  {
    hide VerifyTx, IsSigned;
    if genesis != GENESIS_HASH {
      return Failure(TransactionSignerRecoveryError);
    }
    for n := 0 to |txs|
      invariant forall i :: 0 <= i < n ==> Authorized(crypto, txs[i])
    {
      match txs[n] {
        case Ethereum(_) =>
        case Cosmos(tx) =>
          VerifyTxExact(crypto, tx, tx.operation.sender);
          if VerifyTx(crypto, tx).Success? {
            VerifyTxExact(crypto, tx, VerifyTx(crypto, tx).value);
          } else {
            assert !Authorized(crypto, txs[n]);
            return Failure(TransactionSignerRecoveryError);
          }
      }
    }
    return Success(());
  }
}
