/**
 The transaction envelope: Ethereum transactions pass through, Cosmos transactions carry their
 cached bytes. Ethereum encodings are data of the transaction and its decoders are parameters.
 */
module Envelopes {
  import opened Wrappers
  import opened Bytes
  import opened Rlp
  import opened RlpBuffers
  import opened Crypto
  import opened Authorization
  import opened Canonical
  import opened Cosmos
  import AuthorizationBuffers

  /** The bytes of an Ethereum transaction after its type byte; with that byte they fit a buffer. */
  type EthereumBody = s: seq<Byte> | |s| < MAX_ALLOCATION

  const BLOB_TX_TYPE: Byte := 3

  /** What the node reads off an Ethereum transaction. Type 0 is the legacy form, which writes no
      type byte; `blobs` is the number of blob hashes and means something for blob transactions
      only. */
  datatype EthereumTx = EthereumTx(
    ty: Byte,
    body: EthereumBody,
    gasLimit: U64,
    maxFee: U128,
    maxPriorityFee: Option<U128>,
    blobs: nat)

  datatype Transaction = Ethereum(eth: EthereumTx) | Cosmos(signed: CosmosSigned) {

    function Ty(): Byte {
      match this
      case Ethereum(t) => t.ty
      case Cosmos(_) => TX_TYPE
    }

    function GasLimit(): U64 {
      match this
      case Ethereum(t) => t.gasLimit
      case Cosmos(t) => t.operation.gasLimit
    }

    function MaxFeePerGas(): U128 {
      match this
      case Ethereum(t) => t.maxFee
      case Cosmos(t) => t.operation.maxFeePerGas
    }

    function MaxPriorityFeePerGas(): Option<U128> {
      match this
      case Ethereum(t) => t.maxPriorityFee
      case Cosmos(t) => Some(t.operation.maxPriorityFeePerGas)
    }

    /** The number of blobs of a blob transaction; a Cosmos transaction carries none. */
    function BlobCount(): Option<nat> {
      match this
      case Ethereum(t) => if t.ty == BLOB_TX_TYPE then Some(t.blobs) else None
      case Cosmos(_) => None
    }

    /** What the sender pays per gas; a transaction without a priority fee pays its gas price. */
    function EffectivePrice(baseFee: U64): nat {
      match MaxPriorityFeePerGas()
      case None => MaxFeePerGas()
      case Some(priority) => EffectiveGasPrice(MaxFeePerGas(), priority, baseFee)
    }

    /** What the block's beneficiary gets per gas; `None` when the base fee is not covered. */
    function EffectiveTip(baseFee: U64): Option<nat> {
      if MaxFeePerGas() < baseFee then None
      else
        match MaxPriorityFeePerGas()
        case None => Some(MaxFeePerGas() - baseFee)
        case Some(priority) =>
          var fee := MaxFeePerGas() - baseFee;
          Some(if fee < priority then fee else priority)
    }

    function Encode2718(): Buffer {
      match this
      case Ethereum(t) => if t.ty == 0 then t.body else [t.ty] + t.body
      case Cosmos(t) => t.raw
    }

    /** The item a block body or a network message holds: a typed transaction is framed as a
        string, a legacy one is already a list. */
    function NetworkEncode(): seq<Byte> {
      var bytes := Encode2718();
      if Ty() == 0 then bytes else EncodeHeader(Header(false, |bytes|)) + bytes
    }

    /** The length the envelope reports without encoding anything. */
    function Length(): nat {
      var n := |Encode2718()|;
      if Ty() == 0 then n else HeaderLength(Header(false, n)) + n
    }
  }

  /** What the beneficiary gets: nothing is defined when the base fee is not covered; otherwise it
      is what the fee cap leaves, and no more than the priority fee if there is one. */
  lemma TipExact(tx: Transaction, baseFee: U64, tip: nat)
    ensures tx.EffectiveTip(baseFee) == Some(tip)
       <==> && baseFee + tip <= tx.MaxFeePerGas()
            && (tx.MaxPriorityFeePerGas().Some? ==> tip <= tx.MaxPriorityFeePerGas().value)
            && (baseFee + tip == tx.MaxFeePerGas() || tx.MaxPriorityFeePerGas() == Some(tip))
  {
  }

  /** A sender never pays more per gas than the fee cap, and under a base fee above it exactly that. */
  lemma PriceCapped(tx: Transaction, baseFee: U64)
    ensures tx.EffectivePrice(baseFee) <= tx.MaxFeePerGas()
    ensures tx.MaxFeePerGas() < baseFee ==> tx.EffectivePrice(baseFee) == tx.MaxFeePerGas()
  {
  }

  /** The price a sender pays per gas splits exactly into base fee and tip, once the base fee is
      covered. */
  lemma PriceSplits(tx: Transaction, baseFee: U64)
    requires tx.MaxFeePerGas() >= baseFee
    ensures tx.EffectiveTip(baseFee).Some?
    ensures tx.EffectivePrice(baseFee) == baseFee + tx.EffectiveTip(baseFee).value
    ensures tx.EffectiveTip(baseFee).value < TWO_128
  {
  }

  /** The length a transaction reports is the length of what it writes. */
  lemma LengthExact(tx: Transaction)
    ensures tx.Length() == |tx.NetworkEncode()|
  {
    var n := |tx.Encode2718()|;
    assert |EncodeHeader(Header(false, n))| == HeaderLength(Header(false, n));
  }

  /** A typed transaction travels as one RLP string: a strict reader takes exactly the transaction's
      bytes off the front of what is written, whatever follows. */
  lemma NetworkFramesTyped(tx: Transaction, rest: seq<Byte>)
    requires tx.Ty() != 0 && |tx.Encode2718()| > 1
    ensures DecodeString(Strict, tx.NetworkEncode() + rest) == Success((tx.Encode2718(), rest))
  {
    var bytes := tx.Encode2718();
    ReadEncodedString(Strict, bytes, rest);
    assert tx.NetworkEncode() == EncodeString(bytes);
  }

  // ---------------------------------------------------------------- decoding

  datatype Eip2718Error = Malformed(error: RlpError) | InvalidSize | InvalidEncoding | UnexpectedType

  type EthereumDecoder = (Byte, seq<Byte>) -> Result<(EthereumTx, seq<Byte>), Eip2718Error>

  /** The Cosmos transaction at the front of a slice that follows its type byte. */
  function DecodeFront(crypto: Crypto, buf: seq<Byte>)
    : Result<(CosmosSigned, seq<Byte>), Eip2718Error>
  {
    match DecodeHeader(Strict, buf)
    case Failure(e) => Failure(Malformed(e))
    case Success((h, _)) =>
      var len := HeaderLength(h) + h.payloadLength;
      if !h.list || len > MAX_RAW_TX - 1 || len > |buf| then Failure(InvalidSize)
      else
        match DecodeSigned(crypto, [TX_TYPE] + buf[..len])
        case Failure(_) => Failure(InvalidEncoding)
        case Success(tx) => Success((tx, buf[len..]))
  }

  /** One transaction of a given type at the front of `buf`, and what follows it. */
  function TypedDecode(crypto: Crypto, eth: EthereumDecoder, ty: Byte, buf: seq<Byte>)
    : Result<(Transaction, seq<Byte>), Eip2718Error>
  {
    if ty != TX_TYPE then
      var (t, rest) :- eth(ty, buf);
      Success((Ethereum(t), rest))
    else
      var (tx, rest) :- DecodeFront(crypto, buf);
      Success((Cosmos(tx), rest))
  }

  /** The signed transaction whose wire encoding is all of `raw`. */
  function DecodeSigned(crypto: Crypto, raw: seq<Byte>): Result<CosmosSigned, AuthError> {
    var (op, key, signature) :- DecodeWire(Strict, true, raw);
    New(crypto, op, key, signature)
  }

  lemma DecodeSignedExact(crypto: Crypto, raw: seq<Byte>, tx: CosmosSigned)
    ensures DecodeSigned(crypto, raw) == Success(tx) <==> Valid(crypto, tx) && raw == tx.raw
  {
    if DecodeSigned(crypto, raw).Success? {
      NewAfterDecode(crypto, raw);
    }
    if Valid(crypto, tx) && raw == tx.raw {
      DecodeWireExact(Strict, raw, tx.operation, tx.publicKey, SignatureBytes(tx.signature));
      ValidIsNew(crypto, tx);
    }
    hide DecodeWire, New, Valid, EncodeWire, SignatureBytes;
  }

  /** A valid transaction's bytes after the type byte are an RLP list small enough to decode. */
  lemma RawIsList(crypto: Crypto, tx: CosmosSigned) returns (body: Str)
    requires Valid(crypto, tx)
    ensures tx.raw == [TX_TYPE] + tx.raw[1..] && tx.raw[1..] == EncodeList(body)
    ensures |tx.raw| <= MAX_RAW_TX
  {
    var signature := SignatureBytes(tx.signature);
    WireWithinSizeLimit(tx.operation, tx.publicKey, signature);
    WireShape(tx.operation, tx.publicKey, signature);
    hide EncodeWire, SignatureBytes, EncodeList, WireBody;
    body := WireBody(tx.operation, tx.publicKey, signature);
    assert tx.raw == [tx.raw[0]] + tx.raw[1..];
  }

  lemma ReadRawHeader(body: Str, rest: seq<Byte>)
    ensures DecodeHeader(Strict, EncodeList(body) + rest).Success?
    ensures var h := DecodeHeader(Strict, EncodeList(body) + rest).value.0;
            h.list && HeaderLength(h) + h.payloadLength == |EncodeList(body)|
  {
    var h := Header(true, |body|);
    ReadEncodedHeader(Strict, h, body + rest);
    assert EncodeList(body) + rest == EncodeHeader(h) + (body + rest);
  }

  lemma FrontOfReads(crypto: Crypto, buf: seq<Byte>, len: nat, tx: CosmosSigned)
    requires DecodeHeader(Strict, buf).Success? && DecodeHeader(Strict, buf).value.0.list
    requires var h := DecodeHeader(Strict, buf).value.0; HeaderLength(h) + h.payloadLength == len
    requires len <= |buf| && len < MAX_RAW_TX
    requires DecodeSigned(crypto, [TX_TYPE] + buf[..len]) == Success(tx)
    ensures DecodeFront(crypto, buf) == Success((tx, buf[len..]))
  {
    hide DecodeHeader, DecodeSigned, HeaderLength;
  }

  lemma ReadsOfFront(crypto: Crypto, buf: seq<Byte>) returns (len: nat)
    requires DecodeFront(crypto, buf).Success?
    ensures len <= |buf|
    ensures var (tx, rest) := DecodeFront(crypto, buf).value;
            DecodeSigned(crypto, [TX_TYPE] + buf[..len]) == Success(tx) && rest == buf[len..]
  {
    hide DecodeHeader, DecodeSigned, HeaderLength;
    var h := DecodeHeader(Strict, buf).value.0;
    len := HeaderLength(h) + h.payloadLength;
  }

  lemma SplitAfterType(ty: Byte, x: seq<Byte>, buf: seq<Byte>, rest: seq<Byte>)
    requires x != [] && [ty] + buf == x + rest
    ensures buf == x[1..] + rest
    ensures |x| - 1 <= |buf| && [ty] + buf[..|x| - 1] == x && buf[|x| - 1..] == rest
  {
    assert buf == ([ty] + buf)[1..];
    assert (x + rest)[1..] == x[1..] + rest;
    assert x == [x[0]] + x[1..] && x[0] == ([ty] + buf)[0];
  }

  lemma JoinAfterType(ty: Byte, buf: seq<Byte>, len: nat)
    requires len <= |buf|
    ensures [ty] + buf == [ty] + buf[..len] + buf[len..]
  {
  }

  /** Wire encodings are a prefix code with exactly one decoder: a Cosmos transaction comes out of
      the front of a buffer if and only if the buffer is its bytes followed by what is left. */
  lemma TypedDecodeExact(crypto: Crypto, eth: EthereumDecoder, buf: seq<Byte>, tx: CosmosSigned,
                         rest: seq<Byte>)
    ensures TypedDecode(crypto, eth, TX_TYPE, buf) == Success((Cosmos(tx), rest))
       <==> Valid(crypto, tx) && [TX_TYPE] + buf == tx.raw + rest
  {
    hide DecodeFront, DecodeSigned, Valid;
    if Valid(crypto, tx) && [TX_TYPE] + buf == tx.raw + rest {
      FrontOfRaw(crypto, buf, tx, rest);
    }
    if DecodeFront(crypto, buf).Success? {
      var len := ReadsOfFront(crypto, buf);
      DecodeSignedExact(crypto, [TX_TYPE] + buf[..len], DecodeFront(crypto, buf).value.0);
      JoinAfterType(TX_TYPE, buf, len);
    }
  }

  /** What a failed decoding says: a bad header is passed on; a size error is a header that is no list,
      too long or longer than the slice; everything else is no transaction's bytes. */
  lemma TypedErrorsExact(crypto: Crypto, eth: EthereumDecoder, buf: seq<Byte>)
    ensures var r, header := TypedDecode(crypto, eth, TX_TYPE, buf), DecodeHeader(Strict, buf);
            && (r.Failure? && r.error.Malformed? <==> header.Failure?)
            && (header.Failure? ==> r == Failure(Malformed(header.error)))
            && (header.Success? ==>
                  var h := header.value.0;
                  var len := HeaderLength(h) + h.payloadLength;
                  var fits := h.list && len < MAX_RAW_TX && len <= |buf|;
                  && (r == Failure(InvalidSize) <==> !fits)
                  && (r == Failure(InvalidEncoding) <==>
                        fits && forall tx | Valid(crypto, tx) :: tx.raw != [TX_TYPE] + buf[..len]))
  {
    hide DecodeHeader, DecodeSigned, HeaderLength, Valid;
    var header := DecodeHeader(Strict, buf);
    if header.Success? {
      var len := HeaderLength(header.value.0) + header.value.0.payloadLength;
      if header.value.0.list && len < MAX_RAW_TX && len <= |buf| {
        var raw := [TX_TYPE] + buf[..len];
        if DecodeSigned(crypto, raw).Success? {
          DecodeSignedExact(crypto, raw, DecodeSigned(crypto, raw).value);
        }
        forall tx | Valid(crypto, tx) && tx.raw == raw
          ensures DecodeSigned(crypto, raw).Success?
        {
          DecodeSignedExact(crypto, raw, tx);
        }
      }
    }
  }

  lemma FrontOfRaw(crypto: Crypto, buf: seq<Byte>, tx: CosmosSigned, rest: seq<Byte>)
    requires Valid(crypto, tx) && [TX_TYPE] + buf == tx.raw + rest
    ensures DecodeFront(crypto, buf) == Success((tx, rest))
  {
    hide DecodeHeader, DecodeFront, DecodeSigned, Valid, HeaderLength, EncodeList;
    var body := RawIsList(crypto, tx);
    SplitAfterType(TX_TYPE, tx.raw, buf, rest);
    ReadRawHeader(body, rest);
    DecodeSignedExact(crypto, tx.raw, tx);
    FrontOfReads(crypto, buf, |tx.raw| - 1, tx);
  }

  type EthereumFallback = seq<Byte> -> Result<(EthereumTx, seq<Byte>), Eip2718Error>

  /** One transaction of any type: a first byte up to 0x7f is its type. */
  function Decode2718(crypto: Crypto, eth: EthereumDecoder, legacy: EthereumFallback, buf: seq<Byte>)
    : Result<(Transaction, seq<Byte>), Eip2718Error>
  {
    if buf != [] && buf[0] <= 0x7f then TypedDecode(crypto, eth, buf[0], buf[1..])
    else
      var (t, rest) :- legacy(buf);
      Success((Ethereum(t), rest))
  }

  /** The first `n` transactions of `buf`. */
  function DecodeMany(crypto: Crypto, eth: EthereumDecoder, legacy: EthereumFallback, n: nat,
                      buf: seq<Byte>): Result<(seq<Transaction>, seq<Byte>), Eip2718Error>
  {
    if n == 0 then Success(([], buf))
    else
      var (tx, rest) :- Decode2718(crypto, eth, legacy, buf);
      var (txs, left) :- DecodeMany(crypto, eth, legacy, n - 1, rest);
      Success(([tx] + txs, left))
  }

  /** The encodings of `txs`, one after the other. */
  function Concat(txs: seq<CosmosSigned>): seq<Byte> {
    if txs == [] then [] else Cosmos(txs[0]).Encode2718() + Concat(txs[1..])
  }

  function Wrap(txs: seq<CosmosSigned>): seq<Transaction> {
    seq(|txs|, i requires 0 <= i < |txs| => Cosmos(txs[i]))
  }

  lemma Decode2718OfRaw(crypto: Crypto, eth: EthereumDecoder, legacy: EthereumFallback,
                        tx: CosmosSigned, rest: seq<Byte>)
    requires Valid(crypto, tx)
    ensures Decode2718(crypto, eth, legacy, tx.raw + rest) == Success((Cosmos(tx), rest))
  {
    var _ := RawIsList(crypto, tx);
    hide Valid, TypedDecode, EncodeList;
    var buf := tx.raw + rest;
    assert buf == [TX_TYPE] + buf[1..];
    TypedDecodeExact(crypto, eth, buf[1..], tx, rest);
  }

  /** Any concatenation of Cosmos transactions, whatever follows it, decodes back to those
      transactions in order and leaves what follows. */
  lemma {:induction false} DecodeManyOfConcat(crypto: Crypto, eth: EthereumDecoder,
                                              legacy: EthereumFallback, txs: seq<CosmosSigned>,
                                              rest: seq<Byte>)
    requires forall i :: 0 <= i < |txs| ==> Valid(crypto, txs[i])
    ensures DecodeMany(crypto, eth, legacy, |txs|, Concat(txs) + rest)
         == Success((Wrap(txs), rest))
  {
    hide Decode2718, Valid;
    if txs == [] {
      assert Concat(txs) + rest == rest;
      assert Wrap(txs) == [];
    } else {
      DecodeManyOfConcat(crypto, eth, legacy, txs[1..], rest);
      Decode2718OfRaw(crypto, eth, legacy, txs[0], Concat(txs[1..]) + rest);
      assert Concat(txs) + rest == txs[0].raw + (Concat(txs[1..]) + rest);
      assert Wrap(txs) == [Cosmos(txs[0])] + Wrap(txs[1..]);
    }
  }

  /** The decoder as the source runs it: a copy of the slice is probed, and the slice itself moves
      only once a transaction has been accepted. */
  method ReadTyped(crypto: Crypto, buf: Cursor<Eip2718Error>)
    returns (r: Result<Transaction, Eip2718Error>)
    requires buf.tolerance == Strict
    modifies buf
    ensures forall eth ::
              match TypedDecode(crypto, eth, TX_TYPE, old(buf.rest))
              case Failure(e) => r == Failure(e) && buf.rest == old(buf.rest)
              case Success((tx, left)) => r == Success(tx) && buf.rest == left
  {
    hide DecodeHeader, DecodeWire, New, HeaderLength;
    var original := buf.rest;
    var header := DecodeHeader(Strict, original);
    if header.Failure? {
      return Failure(Malformed(header.error));
    }
    var h := header.value.0;
    var len := HeaderLength(h) + h.payloadLength;
    if !h.list || len > MAX_RAW_TX - 1 || len > |original| {
      return Failure(InvalidSize);
    }
    var raw := new Writer();
    raw.Put([TX_TYPE]);
    raw.Put(original[..len]);
    assert raw.bytes == [TX_TYPE] + original[..len];
    var parts := AuthorizationBuffers.ReadWire(Strict, raw.bytes);
    if parts.Failure? {
      return Failure(InvalidEncoding);
    }
    var (op, key, signature) := parts.value;
    match New(crypto, op, key, signature) {
      case Failure(_) => return Failure(InvalidEncoding);
      case Success(tx) =>
        buf.rest := original[len..];
        return Success(Cosmos(tx));
    }
  }

  // ---------------------------------------------------------------- signer recovery

  datatype RecoveryPath = Checked | Unchecked | Buffered | UncheckedBuffered

  datatype RecoveryError = RecoveryError

  function Recover(crypto: Crypto, eth: (RecoveryPath, EthereumTx) -> Result<Bytes20, RecoveryError>,
                   path: RecoveryPath, tx: Transaction): Result<Bytes20, RecoveryError>
  {
    match tx
    case Ethereum(t) => eth(path, t)
    case Cosmos(t) =>
      match VerifyTx(crypto, t)
      case Failure(_) => Failure(RecoveryError)
      case Success(sender) => Success(sender)
  }
}
