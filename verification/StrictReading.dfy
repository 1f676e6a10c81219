/**
 What the codec's re-encode comparisons are for: with a strict reader they change nothing, with
 a lax one they are all that keeps an authorization to a single byte string.
 */
module StrictReading {
  import opened Wrappers
  import opened Bytes
  import opened Rlp
  import opened Authorization
  import opened Canonical

  lemma StrictU64(buf: seq<Byte>)
    requires DecodeU64(Strict, buf).Success?
    ensures var (n, rest) := DecodeU64(Strict, buf).value; buf == EncodeString(Numeral(n)) + rest
  {
    hide DecodeUint, EncodeString;
    StrictUintIsCanonical(8, buf);
    UintIsItsNumeral(DecodeUint(Strict, 8, buf).value.0);
  }

  lemma StrictU128(buf: seq<Byte>)
    requires DecodeU128(Strict, buf).Success?
    ensures var (n, rest) := DecodeU128(Strict, buf).value; buf == EncodeString(Numeral(n)) + rest
  {
    hide DecodeUint, EncodeString;
    StrictUintIsCanonical(16, buf);
    UintIsItsNumeral(DecodeUint(Strict, 16, buf).value.0);
  }

  lemma StrictU256(buf: seq<Byte>)
    requires DecodeU256(Strict, buf).Success?
    ensures var (n, rest) := DecodeU256(Strict, buf).value; buf == EncodeString(Numeral(n)) + rest
  {
    hide DecodeUint, EncodeString;
    StrictUintIsCanonical(32, buf);
    UintIsItsNumeral(DecodeUint(Strict, 32, buf).value.0);
  }

  lemma StrictFixed(length: nat, buf: seq<Byte>)
    requires length <= 32
    requires DecodeFixed(Strict, length, buf).Success?
    ensures var (s, rest) := DecodeFixed(Strict, length, buf).value;
            |s| == length && buf == EncodeString(s) + rest
  {
    StrictStringIsCanonical(buf);
  }

  lemma StrictVersion(buf: seq<Byte>)
    requires DecodeUint(Strict, 1, buf).Success? && DecodeUint(Strict, 1, buf).value.0 == 1
    ensures buf == EncodeString([1]) + DecodeUint(Strict, 1, buf).value.1
  {
    StrictUintIsCanonical(1, buf);
  }

  lemma StrictList(raw: seq<Byte>)
    requires ListBody(Strict, raw).Success?
    ensures var body := ListBody(Strict, raw).value; |body| < TWO_64 && raw == EncodeList(body)
  {
    StrictHeaderIsCanonical(raw);
    var (h, used) := DecodeHeader(Strict, raw).value;
    assert raw == raw[..used] + raw[used..];
  }

  lemma StrictRoute(buf: seq<Byte>)
    requires DecodeRoute(Strict, buf).Success?
    ensures var (r, rest) := DecodeRoute(Strict, buf).value;
            buf == EncodeString(Numeral(r.chainId)) + (EncodeString(r.genesisHash)
                   + (EncodeString(r.sender) + (EncodeString(Numeral(r.nonce))
                   + (EncodeString(r.to) + rest))))
  {
    hide DecodeU64, DecodeFixed, EncodeString, Numeral;
    StrictU64(buf);
    var b1 := DecodeU64(Strict, buf).value.1;
    StrictFixed(32, b1);
    var b2 := DecodeFixed(Strict, 32, b1).value.1;
    StrictFixed(20, b2);
    var b3 := DecodeFixed(Strict, 20, b2).value.1;
    StrictU64(b3);
    StrictFixed(20, DecodeU64(Strict, b3).value.1);
  }

  lemma StrictOperation(buf: seq<Byte>)
    requires |buf| <= MAX_RAW_TX
    requires DecodeOperation(Strict, buf).Success? && DecodeOperation(Strict, buf).value.1 == []
    ensures buf == Rest(DecodeOperation(Strict, buf).value.0, 2)
  {
    hide Rest, DecodeRoute, DecodeU64, DecodeU128, DecodeU256, DecodeString, EncodeString, Numeral;
    StrictRoute(buf);
    var b5 := DecodeRoute(Strict, buf).value.1;
    StrictU256(b5);
    var b6 := DecodeU256(Strict, b5).value.1;
    StrictStringIsCanonical(b6);
    var b7 := DecodeString(Strict, b6).value.1;
    StrictU64(b7);
    var b8 := DecodeU64(Strict, b7).value.1;
    StrictU128(b8);
    StrictU128(DecodeU128(Strict, b8).value.1);
    RestSteps(DecodeOperation(Strict, buf).value.0);
  }

  lemma StrictVersioned(body: seq<Byte>)
    requires |body| <= MAX_RAW_TX
    requires DecodeVersioned(Strict, body).Success? && DecodeVersioned(Strict, body).value.1 == []
    ensures body == Rest(DecodeVersioned(Strict, body).value.0, 0)
  {
    hide Rest, DecodeString, DecodeUint, DecodeOperation, EncodeString;
    var op := DecodeVersioned(Strict, body).value.0;
    StrictStringIsCanonical(body);
    var b1 := DecodeString(Strict, body).value.1;
    StrictVersion(b1);
    StrictOperation(DecodeUint(Strict, 1, b1).value.1);
    RestStep(op, 1);
    RestStep(op, 0);
  }

  /** What a strict reader takes for an operation is that operation's payload, so the payload
      decoder without its comparison gives the same results. */
  lemma PayloadRecheckRedundant(raw: seq<Byte>)
    ensures DecodePayload(Strict, false, raw) == DecodePayload(Strict, true, raw)
  {
    hide ListBody, DecodeVersioned, Payload, Rest;
    if |raw| <= MAX_RAW_TX && ListBody(Strict, raw).Success? {
      var body := ListBody(Strict, raw).value;
      if DecodeVersioned(Strict, body).Success? && DecodeVersioned(Strict, body).value.1 == [] {
        StrictList(raw);
        StrictVersioned(body);
        PayloadIsRest(DecodeVersioned(Strict, body).value.0);
      }
    }
  }

  lemma StrictWire(raw: seq<Byte>, body: seq<Byte>, items: WireItems, op: Operation)
    requires raw != [] && raw[0] == TX_TYPE
    requires ListBody(Strict, raw[1..]) == Success(body)
    requires SplitWire(Strict, body) == Success(items) && items.rest == []
    requires DecodePayload(Strict, true, items.payload) == Success(op)
    requires |items.key| == 33 && |items.signature| == 64
    ensures WithinLimits(op) && raw == EncodeWire(op, items.key, items.signature)
  {
    HeadAndTail(raw);
    DecodePayloadExact(Strict, items.payload, op);
    SmallIsFramable(op, items.key, items.signature);
    hide *;
    StrictList(raw[1..]);
    StrictSplit(body, items);
    WireOfParts(op, items.key, items.signature, body);
  }

  lemma HeadAndTail(raw: seq<Byte>)
    requires raw != []
    ensures raw == [raw[0]] + raw[1..]
  {
  }

  lemma SmallIsFramable(op: Operation, key: seq<Byte>, signature: seq<Byte>)
    requires WithinLimits(op) && |key| == 33 && |signature| == 64
    ensures Framable(op, key, signature)
  {
  }

  lemma WireOfParts(op: Operation, key: Buffer, signature: Buffer, body: Str)
    requires Framable(op, key, signature)
    requires body == EncodeString(Payload(op)) + (EncodeString(key) + (EncodeString(signature) + []))
    ensures EncodeWire(op, key, signature) == [TX_TYPE] + EncodeList(body)
  {
    hide EncodeString, EncodeList, Payload;
    var k, s := EncodeString(key), EncodeString(signature);
    assert body == EncodeString(Payload(op)) + k + s;
  }

  lemma StrictSplit(body: seq<Byte>, items: WireItems)
    requires SplitWire(Strict, body) == Success(items)
    ensures body == EncodeString(items.payload) + (EncodeString(items.key)
                    + (EncodeString(items.signature) + items.rest))
  {
    hide DecodeString, EncodeString;
    StrictStringIsCanonical(body);
    var b1 := DecodeString(Strict, body).value.1;
    StrictStringIsCanonical(b1);
    StrictStringIsCanonical(DecodeString(Strict, b1).value.1);
  }

  /** A strict reader makes both re-encode comparisons redundant: the decoder without them gives
      the same result, error included, on every input. */
  lemma RecheckRedundantWhenStrict(raw: seq<Byte>)
    ensures DecodeWire(Strict, false, raw) == DecodeWire(Strict, true, raw)
  {
    hide ListBody, SplitWire, DecodePayload, EncodeWire;
    if raw != [] && raw[0] == TX_TYPE && ListBody(Strict, raw[1..]).Success? {
      var body := ListBody(Strict, raw[1..]).value;
      if SplitWire(Strict, body).Success? {
        var items := SplitWire(Strict, body).value;
        PayloadRecheckRedundant(items.payload);
        if && DecodePayload(Strict, true, items.payload).Success?
           && |items.key| == 33 && |items.signature| == 64 && items.rest == [] {
          StrictWire(raw, body, items, DecodePayload(Strict, true, items.payload).value);
        }
      }
    }
  }

  // ---------------------------------------------------------------- lax reading

  /** A second framing of an authorization: the length of the signature string, 64, in two bytes
      where the shortest header has one. */
  function Reframed(op: Operation, key: Buffer, signature: Buffer): (raw: seq<Byte>)
    requires WithinLimits(op) && |key| == 33 && |signature| == 64
  {
    [TX_TYPE] + EncodeList(ReframedBody(op, key, signature))
  }

  function ReframedBody(op: Operation, key: Buffer, signature: Buffer): (b: Str)
    requires WithinLimits(op) && |key| == 33 && |signature| == 64
  {
    EncodeString(Payload(op)) + (EncodeString(key) + ([0xB9, 0x00, 0x40] + signature))
  }

  lemma ReframedLength(op: Operation, key: Buffer, signature: Buffer)
    requires WithinLimits(op) && |key| == 33 && |signature| == 64
    ensures |ReframedBody(op, key, signature)| == |WireBody(op, key, signature)| + 1
  {
    LongStringLength(signature);
    hide EncodeString, Payload;
  }

  lemma ReadPaddedHeader(signature: Buffer)
    requires |signature| == 64
    ensures DecodeString(Lax, [0xB9, 0x00, 0x40] + signature) == Success((signature, []))
  {
    var buf := [0xB9, 0x00, 0x40] + signature;
    assert buf[1..3] == [0x00, 0x40];
    assert [0x00, 0x40][..1] == [0x00];
    assert FromBE([0x00]) == 0 && FromBE([0x00, 0x40]) == 64;
    assert buf[3..67] == signature && buf[67..] == [];
  }

  lemma SplitReframed(op: Operation, key: Buffer, signature: Buffer)
    requires WithinLimits(op) && |key| == 33 && |signature| == 64
    ensures SplitWire(Lax, ReframedBody(op, key, signature))
         == Success(WireItems(Payload(op), key, signature, []))
  {
    hide DecodeString, EncodeString, Payload;
    ReadEncodedString(Lax, Payload(op), EncodeString(key) + ([0xB9, 0x00, 0x40] + signature));
    ReadEncodedString(Lax, key, [0xB9, 0x00, 0x40] + signature);
    ReadPaddedHeader(signature);
  }

  lemma ReframedIsDifferent(op: Operation, key: Buffer, signature: Buffer)
    requires WithinLimits(op) && |key| == 33 && |signature| == 64
    ensures Reframed(op, key, signature) != EncodeWire(op, key, signature)
    ensures |Reframed(op, key, signature)| <= MAX_RAW_TX
    ensures Reframed(op, key, signature)[1..] == EncodeList(ReframedBody(op, key, signature))
  {
    WireWithinSizeLimit(op, key, signature);
    WireShape(op, key, signature);
    var x, y := WireBody(op, key, signature), ReframedBody(op, key, signature);
    ReframedLength(op, key, signature);
    hide EncodeList, WireBody, ReframedBody, EncodeWire;
    if Reframed(op, key, signature) == EncodeWire(op, key, signature) {
      EncodeListInjective(y, x);
    }
    ListLength(y);
  }

  /** Without the comparisons, a lax reader accepts a second byte string for every authorization
      within limits; with them, that string is refused. */
  lemma LaxReaderNeedsRecheck(op: Operation, key: Buffer, signature: Buffer)
    requires WithinLimits(op) && |key| == 33 && |signature| == 64
    ensures var raw := Reframed(op, key, signature);
            && raw != EncodeWire(op, key, signature)
            && DecodeWire(Lax, false, raw) == Success((op, key, signature))
            && DecodeWire(Lax, true, raw) == Failure(Encoding)
  {
    var raw := Reframed(op, key, signature);
    var body := ReframedBody(op, key, signature);
    ReframedIsDifferent(op, key, signature);
    SplitReframed(op, key, signature);
    WireWithinSizeLimit(op, key, signature);
    hide ListBody, SplitWire, DecodePayload, EncodeList, EncodeWire, ReframedBody, DecodeWire, Payload;
    ReadList(Lax, body);
    DecodePayloadOfPayload(Lax, false, op);
    DecodePayloadOfPayload(Lax, true, op);
    WireOfReads(Lax, false, raw, body, WireItems(Payload(op), key, signature, []), op);
    RefusedOnRecheck(raw, body, WireItems(Payload(op), key, signature, []), op);
  }

  lemma RefusedOnRecheck(raw: seq<Byte>, body: seq<Byte>, items: WireItems, op: Operation)
    requires 0 < |raw| <= MAX_RAW_TX && raw[0] == TX_TYPE
    requires ListBody(Lax, raw[1..]) == Success(body)
    requires SplitWire(Lax, body) == Success(items)
    requires DecodePayload(Lax, true, items.payload) == Success(op)
    requires WithinLimits(op) && |items.key| == 33 && |items.signature| == 64
    requires raw != EncodeWire(op, items.key, items.signature)
    ensures DecodeWire(Lax, true, raw) == Failure(Encoding)
  {
    hide ListBody, SplitWire, DecodePayload, EncodeWire;
  }

  /** A second payload of an operation: the version byte, which is its own string, behind a header. */
  function Relabelled(op: Operation): (raw: seq<Byte>)
    requires WithinLimits(op)
  {
    EncodeList(RelabelledBody(op))
  }

  function RelabelledBody(op: Operation): (b: Str)
    requires WithinLimits(op)
    ensures |b| == |Rest(op, 0)| + 1 <= 32_957
  {
    RelabelledLength(op);
    EncodeString(PROTOCOL) + ([0x81, 0x01] + Rest(op, 2))
  }

  lemma RelabelledLength(op: Operation)
    requires WithinLimits(op)
    ensures |EncodeString(PROTOCOL)| + 2 + |Rest(op, 2)| == |Rest(op, 0)| + 1 <= 32_957
  {
    assert EncodeString([1]) == [1];
    hide Rest, EncodeString;
    BodyBound(op);
    RestSteps(op);
  }

  lemma ReadRelabelled(op: Operation)
    requires WithinLimits(op)
    ensures DecodeVersioned(Lax, RelabelledBody(op)) == Success((op, []))
  {
    RelabelledLength(op);
    hide Rest, EncodeString, DecodeString, DecodeUint, DecodeOperation, DecodeVersioned;
    var b1 := [0x81, 0x01] + Rest(op, 2);
    ReadEncodedString(Lax, PROTOCOL, b1);
    ReadLongVersion(Rest(op, 2));
    OperationReadsBack(Lax, op);
    VersionedOfReads(Lax, op, RelabelledBody(op), b1, Rest(op, 2));
  }

  lemma ReadLongVersion(rest: seq<Byte>)
    ensures DecodeUint(Lax, 1, [0x81, 0x01] + rest) == Success((1, rest))
  {
    var buf := [0x81, 0x01] + rest;
    assert buf[1..2] == [0x01] && buf[2..] == rest;
    assert FromBE([0x01]) == 1;
  }

  /** The payload comparison, on its own: without it a lax reader accepts a second payload for every
      operation within limits, with it that payload is refused. Where a payload is decoded apart from
      its authorization, as in storage, no other comparison would catch it. */
  lemma LaxPayloadNeedsRecheck(op: Operation)
    requires WithinLimits(op)
    ensures var raw := Relabelled(op);
            && raw != Payload(op)
            && DecodePayload(Lax, false, raw) == Success(op)
            && DecodePayload(Lax, true, raw) == Failure(Encoding)
  {
    var raw, body := Relabelled(op), RelabelledBody(op);
    PayloadIsRest(op);
    RelabelledLength(op);
    ReadRelabelled(op);
    ListLength(body);
    hide ListBody, DecodeVersioned, EncodeList, RelabelledBody, Payload, WithinLimits, Rest;
    ReadList(Lax, body);
    if raw == Payload(op) {
      EncodeListInjective(body, Rest(op, 0));
    }
  }
}
