/**
 The database form of a transaction: a type tag, the signature held apart by the caller, and a
 body of payload and key.
 */
module Storage {
  import opened Wrappers
  import opened Bytes
  import opened Rlp
  import opened RlpBuffers
  import opened Crypto
  import opened Authorization
  import opened Canonical
  import opened TxTypes
  import opened Cosmos
  import opened Envelopes
  import AuthorizationBuffers

  /** The body stored for a Cosmos transaction. */
  function Body(tx: CosmosSigned): seq<Byte>
    requires |tx.operation.input| + |tx.publicKey| <= MAX_ALLOCATION
  {
    EncodeList(EncodeString(Payload(tx.operation)) + EncodeString(tx.publicKey))
  }

  method ToTxCompact(tx: CosmosSigned, buf: Writer)
    requires |tx.operation.input| + |tx.publicKey| <= MAX_ALLOCATION
    modifies buf
    ensures buf.bytes == old(buf.bytes) + Body(tx)
  {
    hide EncodeHeader, EncodeString, Payload;
    var payload := AuthorizationBuffers.WritePayload(tx.operation);
    ghost var fields := EncodeString(payload) + EncodeString(tx.publicKey);
    buf.PutHeader(Header(true, |EncodeString(payload)| + |EncodeString(tx.publicKey)|));
    buf.PutString(payload);
    buf.PutString(tx.publicKey);
    assert Body(tx) == EncodeHeader(Header(true, |fields|)) + fields;
  }

  /** The payload and key strings that fill a stored body. */
  function SplitFields(fields: seq<Byte>): (r: Result<(Str, Str), Panic>)
    ensures r.Success? ==> |r.value.0| + |r.value.1| <= |fields|
  {
    var (payload, b1) :- Convert(DecodeString(Strict, fields), CorruptPayload);
    var (key, b2) :- Convert(DecodeString(Strict, b1), CorruptKey);
    if b2 != [] then Failure(TrailingFields) else Success((payload, key))
  }

  /** The fields of a stored body, and what follows it. */
  function SplitStored(buf: seq<Byte>): (r: Result<(Str, seq<Byte>), Panic>)
    ensures r.Success? ==> |r.value.0| <= MAX_RAW_TX
  {
    match DecodeHeader(Strict, buf)
    case Failure(_) => Failure(CorruptHeader)
    case Success((h, used)) =>
      if !h.list || h.payloadLength > MAX_RAW_TX || h.payloadLength > |buf| - used then
        Failure(CorruptSize)
      else Success((buf[used..used + h.payloadLength], buf[used + h.payloadLength..]))
  }

  function FromTxCompact(crypto: Crypto, buf: seq<Byte>, signature: Scalars)
    : Result<(CosmosSigned, seq<Byte>), Panic>
  {
    if signature.v then Failure(CorruptParity)
    else
      var (fields, rest) :- SplitStored(buf);
      var (payload, key) :- SplitFields(fields);
      match DecodePayload(Strict, true, payload)
      case Failure(_) => Failure(CorruptOperation)
      case Success(op) =>
        match New(crypto, op, key, SignatureBytes(signature))
        case Failure(_) => Failure(CorruptTransaction)
        case Success(tx) => Success((tx, rest))
  }

  // ---------------------------------------------------------------- exactness

  lemma SplitOfList(fields: Str, rest: seq<Byte>)
    requires |fields| <= MAX_RAW_TX
    ensures SplitStored(EncodeList(fields) + rest) == Success((fields, rest))
  {
    var h := Header(true, |fields|);
    var buf := EncodeList(fields) + rest;
    assert buf == EncodeHeader(h) + (fields + rest);
    ReadEncodedHeader(Strict, h, fields + rest);
    hide DecodeHeader, EncodeHeader;
    var used := |EncodeHeader(h)|;
    assert buf[used..used + |fields|] == fields && buf[used + |fields|..] == rest;
  }

  lemma ListOfSplit(buf: seq<Byte>)
    requires SplitStored(buf).Success?
    ensures var (fields, rest) := SplitStored(buf).value; buf == EncodeList(fields) + rest
  {
    hide DecodeHeader, EncodeHeader;
    StrictHeaderIsCanonical(buf);
    var (h, used) := DecodeHeader(Strict, buf).value;
    ThreeParts(buf, used, used + h.payloadLength);
  }

  lemma FieldsOfStrings(payload: Str, key: Str)
    ensures SplitFields(EncodeString(payload) + EncodeString(key)) == Success((payload, key))
  {
    ReadEncodedString(Strict, payload, EncodeString(key));
    ReadEncodedString(Strict, key, []);
    hide DecodeString, EncodeString;
    assert EncodeString(key) + [] == EncodeString(key);
  }

  lemma StringsOfFields(fields: seq<Byte>)
    requires SplitFields(fields).Success?
    ensures var (payload, key) := SplitFields(fields).value;
            fields == EncodeString(payload) + EncodeString(key)
  {
    hide DecodeString, EncodeString;
    StrictStringIsCanonical(fields);
    var b1 := DecodeString(Strict, fields).value.1;
    StrictStringIsCanonical(b1);
    var key := DecodeString(Strict, b1).value.0;
    assert b1 == EncodeString(key) + [];
  }

  lemma StoredSizes(op: Operation, key: Buffer)
    requires WithinLimits(op) && |key| == 33
    ensures |EncodeString(Payload(op))| + |EncodeString(key)| <= MAX_RAW_TX
  {
    WireWithinSizeLimit(op, key, seq(64, _ => 0));
    StringLength(Payload(op), 32_959);
    StringLength(key, 33);
  }

  lemma FromReads(crypto: Crypto, buf: seq<Byte>, tx: CosmosSigned, fields: seq<Byte>,
                  payload: Str, rest: seq<Byte>)
    requires !tx.signature.v
    requires SplitStored(buf) == Success((fields, rest))
    requires SplitFields(fields) == Success((payload, tx.publicKey))
    requires DecodePayload(Strict, true, payload) == Success(tx.operation)
    requires New(crypto, tx.operation, tx.publicKey, SignatureBytes(tx.signature)) == Success(tx)
    ensures FromTxCompact(crypto, buf, tx.signature) == Success((tx, rest))
  {
    hide SplitStored, SplitFields, DecodePayload, New, SignatureBytes;
  }

  lemma FromBody(crypto: Crypto, tx: CosmosSigned, rest: seq<Byte>)
    requires Valid(crypto, tx)
    ensures FromTxCompact(crypto, Body(tx) + rest, tx.signature) == Success((tx, rest))
  {
    ValidIsSmall(crypto, tx);
    hide *;
    SplitBody(tx, rest);
    FieldsOfStrings(Payload(tx.operation), tx.publicKey);
    PayloadIsAccepted(tx.operation);
    ValidIsNew(crypto, tx);
    FromReads(crypto, Body(tx) + rest, tx,
              EncodeString(Payload(tx.operation)) + EncodeString(tx.publicKey),
              Payload(tx.operation), rest);
  }

  lemma SplitBody(tx: CosmosSigned, rest: seq<Byte>)
    requires |tx.operation.input| + |tx.publicKey| <= MAX_ALLOCATION
    requires |EncodeString(Payload(tx.operation))| + |EncodeString(tx.publicKey)| <= MAX_RAW_TX
    ensures var fields := EncodeString(Payload(tx.operation)) + EncodeString(tx.publicKey);
            SplitStored(Body(tx) + rest) == Success((fields, rest))
  {
    hide EncodeString, EncodeList, Payload, SplitStored;
    SplitOfList(EncodeString(Payload(tx.operation)) + EncodeString(tx.publicKey), rest);
  }

  lemma PayloadIsAccepted(op: Operation)
    requires WithinLimits(op)
    ensures DecodePayload(Strict, true, Payload(op)) == Success(op)
  {
    hide Payload, DecodePayload;
    DecodePayloadOfPayload(Strict, true, op);
    WireWithinSizeLimit(op, seq(33, _ => 0), seq(64, _ => 0));
  }

  lemma AcceptedBody(crypto: Crypto, buf: seq<Byte>, signature: Scalars)
    requires FromTxCompact(crypto, buf, signature).Success?
    ensures var (tx, rest) := FromTxCompact(crypto, buf, signature).value;
            Valid(crypto, tx) && tx.signature == signature && buf == Body(tx) + rest
  {
    var fields := SplitStored(buf).value.0;
    var (payload, key) := SplitFields(fields).value;
    var op := DecodePayload(Strict, true, payload).value;
    ListOfSplit(buf);
    StringsOfFields(fields);
    DecodePayloadExact(Strict, payload, op);
    NewExact(crypto, op, key, SignatureBytes(signature));
    BytesRoundTrip(signature);
    BytesRoundTrip(FromTxCompact(crypto, buf, signature).value.0.signature);
    hide SplitStored, SplitFields, DecodePayload, New, EncodeString, EncodeList, Payload,
         EncodeWire, SignatureBytes, ToScalars;
  }

  /** Reading a stored body panics on everything but the body of a valid transaction, stored with
      that transaction's own signature; from that it returns the identical transaction, cached
      bytes and hash included, and whatever follows the body. */
  lemma StorageExact(crypto: Crypto, buf: seq<Byte>, signature: Scalars, tx: CosmosSigned,
                     rest: seq<Byte>)
    ensures FromTxCompact(crypto, buf, signature) == Success((tx, rest))
       <==> Valid(crypto, tx) && tx.signature == signature && buf == Body(tx) + rest
  {
    if FromTxCompact(crypto, buf, signature).Success? {
      AcceptedBody(crypto, buf, signature);
    }
    if Valid(crypto, tx) && tx.signature == signature && buf == Body(tx) + rest {
      FromBody(crypto, tx, rest);
    }
    hide FromTxCompact, Body, EncodeWire;
  }

  // ---------------------------------------------------------------- tag and body

  /** A stored transaction: the identifier kept in the flags, the tag byte if any, the body. */
  function Stored(tx: CosmosSigned): (nat, seq<Byte>)
    requires |tx.operation.input| + |tx.publicKey| <= MAX_ALLOCATION
  {
    (Tag(COSMOS).0, Tag(COSMOS).1 + Body(tx))
  }

  /** The Ethereum arm of the reader is a parameter. */
  function FromStored(crypto: Crypto,
                      eth: (CosmosTxType, seq<Byte>, Scalars) -> Result<(EthereumTx, seq<Byte>), Panic>,
                      identifier: nat, buf: seq<Byte>, signature: Scalars)
    : Result<(Transaction, seq<Byte>), Panic>
  {
    var (ty, body) :- FromCompact(buf, identifier);
    if ty != COSMOS then
      var (t, rest) :- eth(ty, body, signature);
      Success((Ethereum(t), rest))
    else
      var (tx, rest) :- FromTxCompact(crypto, body, signature);
      Success((Cosmos(tx), rest))
  }

  lemma ValidIsSmall(crypto: Crypto, tx: CosmosSigned)
    requires Valid(crypto, tx)
    ensures WithinLimits(tx.operation) && |tx.publicKey| == 33 && !tx.signature.v
    ensures |tx.operation.input| + |tx.publicKey| <= MAX_ALLOCATION
    ensures |EncodeString(Payload(tx.operation))| + |EncodeString(tx.publicKey)| <= MAX_RAW_TX
  {
    StoredSizes(tx.operation, tx.publicKey);
  }

  lemma TagThenBody(tx: CosmosSigned, rest: seq<Byte>)
    requires |tx.operation.input| + |tx.publicKey| <= MAX_ALLOCATION
    ensures FromCompact(Stored(tx).1 + rest, Stored(tx).0) == Success((COSMOS, Body(tx) + rest))
  {
    hide Body, FromCompact;
    TagExact(COSMOS, 3, [], Body(tx) + rest);
    assert Stored(tx).1 + rest == Tag(COSMOS).1 + (Body(tx) + rest);
  }

  lemma StoredOfReads(crypto: Crypto,
                      eth: (CosmosTxType, seq<Byte>, Scalars) -> Result<(EthereumTx, seq<Byte>), Panic>,
                      identifier: nat, buf: seq<Byte>, body: seq<Byte>, signature: Scalars,
                      tx: CosmosSigned, rest: seq<Byte>)
    requires FromCompact(buf, identifier) == Success((COSMOS, body))
    requires FromTxCompact(crypto, body, signature) == Success((tx, rest))
    ensures FromStored(crypto, eth, identifier, buf, signature) == Success((Cosmos(tx), rest))
  {
    hide FromCompact, FromTxCompact;
  }

  /** Database round trip with framing: tag, body and detached signature of any valid transaction,
      followed by anything, read back as that transaction and what followed. */
  lemma StoredRoundTrip(crypto: Crypto,
                        eth: (CosmosTxType, seq<Byte>, Scalars) -> Result<(EthereumTx, seq<Byte>), Panic>,
                        tx: CosmosSigned, rest: seq<Byte>)
    requires Valid(crypto, tx)
    ensures FromStored(crypto, eth, Stored(tx).0, Stored(tx).1 + rest, tx.signature)
         == Success((Cosmos(tx), rest))
  {
    ValidIsSmall(crypto, tx);
    hide *;
    FromBody(crypto, tx, rest);
    TagThenBody(tx, rest);
    StoredOfReads(crypto, eth, Stored(tx).0, Stored(tx).1 + rest, Body(tx) + rest, tx.signature, tx,
                  rest);
  }

  /** The reader as the source runs it, with a cursor for the frame and one for its fields. */
  method ReadTxCompact(crypto: Crypto, buf: seq<Byte>, signature: Scalars)
    returns (r: Result<(CosmosSigned, seq<Byte>), Panic>)
    ensures r == FromTxCompact(crypto, buf, signature)
  {
    if signature.v {
      return Failure(CorruptParity);
    }
    hide SplitStored, SplitFields, DecodePayload, New;
    var frame :- ReadFrame(buf);
    var strings :- ReadFields(frame.0);
    var (payload, key) := strings;
    var decoded := AuthorizationBuffers.ReadPayload(Strict, payload);
    if decoded.Failure? {
      return Failure(CorruptOperation);
    }
    match New(crypto, decoded.value, key, SignatureBytes(signature)) {
      case Failure(_) => return Failure(CorruptTransaction);
      case Success(tx) => return Success((tx, frame.1));
    }
  }

  method ReadFrame(buf: seq<Byte>) returns (r: Result<(seq<Byte>, seq<Byte>), Panic>)
    ensures r == SplitStored(buf)
  {
    var input := new Cursor(Strict, CorruptHeader, buf);
    var header :- input.TakeHeader();
    if !header.list || header.payloadLength > MAX_RAW_TX || header.payloadLength > |input.rest| {
      return Failure(CorruptSize);
    }
    hide DecodeHeader;
    ghost var used := DecodeHeader(Strict, buf).value.1;
    assert input.rest[..header.payloadLength] == buf[used..used + header.payloadLength];
    assert input.rest[header.payloadLength..] == buf[used + header.payloadLength..];
    return Success((input.rest[..header.payloadLength], input.rest[header.payloadLength..]));
  }

  method ReadFields(fields: seq<Byte>) returns (r: Result<(Str, Str), Panic>)
    ensures r == SplitFields(fields)
  {
    hide DecodeString;
    var first := new Cursor(Strict, CorruptPayload, fields);
    var payload :- first.TakeString();
    var second := new Cursor(Strict, CorruptKey, first.rest);
    var key :- second.TakeString();
    if second.rest != [] {
      return Failure(TrailingFields);
    }
    return Success((payload, key));
  }
}
