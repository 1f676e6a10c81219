/**
 The codec as the source runs it: output vectors that grow field by field, input slices that
 shrink field by field. Each method computes the function of `Authorization` it is named after.
 */
module AuthorizationBuffers {
  import opened Wrappers
  import opened Bytes
  import opened Rlp
  import opened RlpBuffers
  import opened Authorization
  import opened Canonical

  method WriteList(fields: Str) returns (raw: seq<Byte>)
    ensures raw == EncodeList(fields)
  {
    var out := new Writer();
    out.PutHeader(Header(true, |fields|));
    out.Put(fields);
    return out.bytes;
  }

  method ReadListBody(tolerance: Tolerance, raw: seq<Byte>) returns (r: Result<seq<Byte>, AuthError>)
    ensures r == ListBody(tolerance, raw)
  {
    var buf := new Cursor(tolerance, Encoding, raw);
    var header :- buf.TakeHeader();
    if !header.list || |buf.rest| != header.payloadLength {
      return Failure(Encoding);
    }
    return Success(buf.rest);
  }

  /** Appending an item moves the boundary between what is written and what is still to come. */
  lemma Appended(op: Operation, i: nat, written: seq<Byte>, item: Str)
    requires i < 12 && item == Field(op, i)
    requires written + Rest(op, i) == Rest(op, 0)
    ensures written + EncodeString(item) + Rest(op, i + 1) == Rest(op, 0)
  {
    hide *;
    RestStep(op, i);
    Regroup(written, EncodeString(item), Rest(op, i + 1));
  }

  method WriteRoute(op: Operation, fields: Writer)
    requires fields.bytes == []
    modifies fields
    ensures fields.bytes + Rest(op, 7) == Rest(op, 0)
  {
    hide Rest, EncodeString;
    assert fields.bytes + Rest(op, 0) == Rest(op, 0);
    Appended(op, 0, fields.bytes, PROTOCOL);
    fields.PutString(PROTOCOL);
    assert Numeral(1) == [1];
    Appended(op, 1, fields.bytes, Numeral(1));
    fields.PutUint(1);
    Appended(op, 2, fields.bytes, Numeral(op.chainId));
    fields.PutUint(op.chainId);
    Appended(op, 3, fields.bytes, op.genesisHash);
    fields.PutString(op.genesisHash);
    Appended(op, 4, fields.bytes, op.sender);
    fields.PutString(op.sender);
    Appended(op, 5, fields.bytes, Numeral(op.nonce));
    fields.PutUint(op.nonce);
    Appended(op, 6, fields.bytes, op.to);
    fields.PutString(op.to);
  }

  method WriteCall(op: Operation, fields: Writer)
    requires fields.bytes + Rest(op, 7) == Rest(op, 0)
    modifies fields
    ensures fields.bytes == Rest(op, 0)
  {
    assert Rest(op, 12) == [];
    hide Rest, EncodeString;
    Appended(op, 7, fields.bytes, Numeral(op.value));
    fields.PutUint(op.value);
    Appended(op, 8, fields.bytes, op.input);
    fields.PutString(op.input);
    Appended(op, 9, fields.bytes, Numeral(op.gasLimit));
    fields.PutUint(op.gasLimit);
    Appended(op, 10, fields.bytes, Numeral(op.maxFeePerGas));
    fields.PutUint(op.maxFeePerGas);
    Appended(op, 11, fields.bytes, Numeral(op.maxPriorityFeePerGas));
    fields.PutUint(op.maxPriorityFeePerGas);
  }

  method WritePayload(op: Operation) returns (raw: seq<Byte>)
    ensures raw == Payload(op)
  {
    PayloadIsRest(op);
    hide Rest, Payload;
    var fields := new Writer();
    WriteRoute(op, fields);
    WriteCall(op, fields);
    raw := WriteList(fields.bytes);
  }

  method ReadOperation(buf: Cursor<AuthError>) returns (r: Result<Operation, AuthError>)
    requires |buf.rest| <= MAX_RAW_TX && buf.failure == Encoding
    modifies buf
    ensures match DecodeOperation(buf.tolerance, old(buf.rest))
            case Failure(e) => r == Failure(e)
            case Success((op, left)) => r == Success(op) && buf.rest == left
  {
    var route :- ReadRoute(buf);
    hide DecodeString, DecodeUint, DecodeRoute;
    var value :- buf.TakeUint(32);
    var input :- buf.TakeString();
    var gasLimit :- buf.TakeUint(8);
    var maxFee :- buf.TakeUint(16);
    var maxPriorityFee :- buf.TakeUint(16);
    return Success(Operation(route.chainId, route.genesisHash, route.sender, route.nonce, route.to,
                             value, input, gasLimit, maxFee, maxPriorityFee));
  }

  method ReadRoute(buf: Cursor<AuthError>) returns (r: Result<Route, AuthError>)
    requires buf.failure == Encoding
    modifies buf
    ensures match DecodeRoute(buf.tolerance, old(buf.rest))
            case Failure(e) => r == Failure(e)
            case Success((route, left)) => r == Success(route) && buf.rest == left
    ensures r.Success? ==> |buf.rest| <= |old(buf.rest)|
  {
    hide DecodeString, DecodeUint, DecodeFixed;
    var chainId :- buf.TakeUint(8);
    var genesisHash :- buf.TakeFixed(32);
    var sender :- buf.TakeFixed(20);
    var nonce :- buf.TakeUint(8);
    var to :- buf.TakeFixed(20);
    return Success(Route(chainId, genesisHash, sender, nonce, to));
  }

  method ReadVersioned(buf: Cursor<AuthError>) returns (r: Result<Operation, AuthError>)
    requires |buf.rest| <= MAX_RAW_TX && buf.failure == Encoding
    modifies buf
    ensures match DecodeVersioned(buf.tolerance, old(buf.rest))
            case Failure(e) => r == Failure(e)
            case Success((op, left)) => r == Success(op) && buf.rest == left
  {
    hide DecodeString, DecodeUint, DecodeOperation;
    var protocol :- buf.TakeString();
    var version :- buf.TakeUint(1);
    if protocol != PROTOCOL || version != 1 {
      return Failure(Encoding);
    }
    r := ReadOperation(buf);
  }

  method ReadPayload(tolerance: Tolerance, raw: seq<Byte>) returns (r: Result<Operation, AuthError>)
    ensures r == DecodePayload(tolerance, true, raw)
  {
    if |raw| > MAX_RAW_TX {
      return Failure(Limit);
    }
    hide ListBody, DecodeVersioned, Payload, WithinLimits, Fields, EncodeStrings, EncodeList;
    var body :- ReadListBody(tolerance, raw);
    var buf := new Cursor(tolerance, Encoding, body);
    var op :- ReadVersioned(buf);
    var again := WritePayload(op);
    if buf.rest != [] || again != raw {
      return Failure(Encoding);
    }
    if !WithinLimits(op) {
      return Failure(Limit);
    }
    return Success(op);
  }

  method WriteWire(op: Operation, key: Buffer, signature: Buffer) returns (raw: seq<Byte>)
    requires Framable(op, key, signature)
    ensures raw == EncodeWire(op, key, signature)
  {
    hide EncodeString, EncodeList, Payload;
    var fields := new Writer();
    var payload := WritePayload(op);
    fields.PutString(payload);
    fields.PutString(key);
    fields.PutString(signature);
    assert fields.bytes == WireBody(op, key, signature);
    var list := WriteList(fields.bytes);
    raw := [TX_TYPE] + list;
  }

  method ReadWire(tolerance: Tolerance, raw: seq<Byte>)
    returns (r: Result<(Operation, seq<Byte>, seq<Byte>), AuthError>)
    ensures r == DecodeWire(tolerance, true, raw)
  {
    if |raw| > MAX_RAW_TX {
      return Failure(Limit);
    }
    if raw == [] || raw[0] != TX_TYPE {
      return Failure(Encoding);
    }
    hide ListBody, DecodeString, DecodePayload, EncodeWire;
    var body :- ReadListBody(tolerance, raw[1..]);
    var buf := new Cursor(tolerance, Encoding, body);
    var payload :- buf.TakeString();
    var key :- buf.TakeString();
    var signature :- buf.TakeString();
    var op :- ReadPayload(tolerance, payload);
    if |key| != 33 {
      return Failure(PublicKey);
    }
    if |signature| != 64 {
      return Failure(Signature);
    }
    var again := WriteWire(op, key, signature);
    if buf.rest != [] || again != raw {
      return Failure(Encoding);
    }
    return Success((op, key, signature));
  }
}
