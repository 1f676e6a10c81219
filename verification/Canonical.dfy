/**
 The authorization codec is canonical: what the decoders accept, for a strict and for a lax
 reader, is exactly what the encoders write.
 */
module Canonical {
  import opened Wrappers
  import opened Bytes
  import opened Rlp
  import opened Authorization

  // ---------------------------------------------------------------- reading what was written

  lemma ReadU64(tolerance: Tolerance, n: U64, rest: seq<Byte>)
    ensures DecodeU64(tolerance, EncodeString(Numeral(n)) + rest) == Success((n, rest))
  {
    Pow256Widths();
    UintIsItsNumeral(n);
    ReadEncodedUint(tolerance, 8, n, rest);
  }

  lemma ReadU128(tolerance: Tolerance, n: U128, rest: seq<Byte>)
    ensures DecodeU128(tolerance, EncodeString(Numeral(n)) + rest) == Success((n, rest))
  {
    Pow256Widths();
    UintIsItsNumeral(n);
    ReadEncodedUint(tolerance, 16, n, rest);
  }

  lemma ReadU256(tolerance: Tolerance, n: U256, rest: seq<Byte>)
    ensures DecodeU256(tolerance, EncodeString(Numeral(n)) + rest) == Success((n, rest))
  {
    Pow256Widths();
    UintIsItsNumeral(n);
    ReadEncodedUint(tolerance, 32, n, rest);
  }

  lemma ReadBuffer(tolerance: Tolerance, s: Buffer, rest: seq<Byte>)
    ensures DecodeString(tolerance, EncodeString(s) + rest) == Success((s, rest))
  {
    ReadEncodedString(tolerance, s, rest);
  }

  lemma ReadFixed(tolerance: Tolerance, s: seq<Byte>, rest: seq<Byte>)
    requires |s| <= 32
    ensures DecodeFixed(tolerance, |s|, EncodeString(s) + rest) == Success((s, rest))
  {
    ReadEncodedString(tolerance, s, rest);
  }

  lemma ReadList(tolerance: Tolerance, body: Str)
    ensures ListBody(tolerance, EncodeList(body)) == Success(body)
  {
    var h := Header(true, |body|);
    ReadEncodedHeader(tolerance, h, body);
    assert EncodeList(body)[|EncodeHeader(h)|..] == body;
  }

  /** The body of the payload list from its `i`-th item on. */
  function Rest(op: Operation, i: nat): seq<Byte>
    requires i <= 12
  {
    EncodeStrings(Fields(op)[i..])
  }

  lemma RestStep(op: Operation, i: nat)
    requires i < 12
    ensures Rest(op, i) == EncodeString(Field(op, i)) + Rest(op, i + 1)
  {
    ReadEncodedStrings(Strict, Fields(op), i);
  }

  /** The body, item by item. */
  lemma RestSteps(op: Operation)
    ensures Rest(op, 0) == EncodeString(PROTOCOL) + Rest(op, 1)
    ensures Rest(op, 1) == EncodeString([1]) + Rest(op, 2)
    ensures Rest(op, 2) == EncodeString(Numeral(op.chainId)) + Rest(op, 3)
    ensures Rest(op, 3) == EncodeString(op.genesisHash) + Rest(op, 4)
    ensures Rest(op, 4) == EncodeString(op.sender) + Rest(op, 5)
    ensures Rest(op, 5) == EncodeString(Numeral(op.nonce)) + Rest(op, 6)
    ensures Rest(op, 6) == EncodeString(op.to) + Rest(op, 7)
    ensures Rest(op, 7) == EncodeString(Numeral(op.value)) + Rest(op, 8)
    ensures Rest(op, 8) == EncodeString(op.input) + Rest(op, 9)
    ensures Rest(op, 9) == EncodeString(Numeral(op.gasLimit)) + Rest(op, 10)
    ensures Rest(op, 10) == EncodeString(Numeral(op.maxFeePerGas)) + Rest(op, 11)
    ensures Rest(op, 11) == EncodeString(Numeral(op.maxPriorityFeePerGas)) + Rest(op, 12)
    ensures Rest(op, 12) == []
  {
    hide EncodeString, Numeral;
    RestStep(op, 0);
    RestStep(op, 1);
    RestStep(op, 2);
    RestStep(op, 3);
    RestStep(op, 4);
    RestStep(op, 5);
    RestStep(op, 6);
    RestStep(op, 7);
    RestStep(op, 8);
    RestStep(op, 9);
    RestStep(op, 10);
    RestStep(op, 11);
  }

  /** Five successful reads in a row are the route they read. */
  lemma RouteOfReads(tolerance: Tolerance, r: Route, b0: seq<Byte>, b1: seq<Byte>, b2: seq<Byte>,
                     b3: seq<Byte>, b4: seq<Byte>, b5: seq<Byte>)
    requires DecodeU64(tolerance, b0) == Success((r.chainId, b1))
    requires DecodeFixed(tolerance, 32, b1) == Success((r.genesisHash, b2))
    requires DecodeFixed(tolerance, 20, b2) == Success((r.sender, b3))
    requires DecodeU64(tolerance, b3) == Success((r.nonce, b4))
    requires DecodeFixed(tolerance, 20, b4) == Success((r.to, b5))
    ensures DecodeRoute(tolerance, b0) == Success((r, b5))
  {
    hide DecodeString, DecodeU64, DecodeFixed;
  }

  lemma OperationOfReads(tolerance: Tolerance, op: Operation, b0: seq<Byte>, b5: seq<Byte>,
                         b6: seq<Byte>, b7: seq<Byte>, b8: seq<Byte>, b9: seq<Byte>, b10: seq<Byte>)
    requires |b0| <= MAX_RAW_TX
    requires DecodeRoute(tolerance, b0)
          == Success((Route(op.chainId, op.genesisHash, op.sender, op.nonce, op.to), b5))
    requires DecodeU256(tolerance, b5) == Success((op.value, b6))
    requires DecodeString(tolerance, b6) == Success((op.input, b7))
    requires DecodeU64(tolerance, b7) == Success((op.gasLimit, b8))
    requires DecodeU128(tolerance, b8) == Success((op.maxFeePerGas, b9))
    requires DecodeU128(tolerance, b9) == Success((op.maxPriorityFeePerGas, b10))
    ensures DecodeOperation(tolerance, b0) == Success((op, b10))
  {
    hide DecodeString, DecodeRoute, DecodeU64, DecodeU128, DecodeU256;
  }

  lemma RouteReadsBack(tolerance: Tolerance, op: Operation)
    ensures DecodeRoute(tolerance, Rest(op, 2))
         == Success((Route(op.chainId, op.genesisHash, op.sender, op.nonce, op.to), Rest(op, 7)))
  {
    hide *;
    RestSteps(op);
    ReadU64(tolerance, op.chainId, Rest(op, 3));
    ReadFixed(tolerance, op.genesisHash, Rest(op, 4));
    ReadFixed(tolerance, op.sender, Rest(op, 5));
    ReadU64(tolerance, op.nonce, Rest(op, 6));
    ReadFixed(tolerance, op.to, Rest(op, 7));
    RouteOfReads(tolerance, Route(op.chainId, op.genesisHash, op.sender, op.nonce, op.to),
                 Rest(op, 2), Rest(op, 3), Rest(op, 4), Rest(op, 5), Rest(op, 6), Rest(op, 7));
  }

  lemma OperationReadsBack(tolerance: Tolerance, op: Operation)
    requires |Rest(op, 2)| <= MAX_RAW_TX
    ensures DecodeOperation(tolerance, Rest(op, 2)) == Success((op, []))
  {
    hide *;
    RestSteps(op);
    RouteReadsBack(tolerance, op);
    ReadU256(tolerance, op.value, Rest(op, 8));
    ReadBuffer(tolerance, op.input, Rest(op, 9));
    ReadU64(tolerance, op.gasLimit, Rest(op, 10));
    ReadU128(tolerance, op.maxFeePerGas, Rest(op, 11));
    ReadU128(tolerance, op.maxPriorityFeePerGas, Rest(op, 12));
    OperationOfReads(tolerance, op, Rest(op, 2), Rest(op, 7), Rest(op, 8), Rest(op, 9), Rest(op, 10),
                     Rest(op, 11), Rest(op, 12));
  }

  lemma VersionedOfReads(tolerance: Tolerance, op: Operation, body: seq<Byte>, b1: seq<Byte>,
                         b2: seq<Byte>)
    requires |b2| <= |body| <= MAX_RAW_TX
    requires DecodeString(tolerance, body) == Success((PROTOCOL, b1))
    requires DecodeUint(tolerance, 1, b1) == Success((1, b2))
    requires DecodeOperation(tolerance, b2) == Success((op, []))
    ensures DecodeVersioned(tolerance, body) == Success((op, []))
  {
    hide DecodeString, DecodeUint, DecodeOperation;
  }

  lemma PayloadOfReads(tolerance: Tolerance, recheck: bool, op: Operation, raw: seq<Byte>,
                       body: seq<Byte>)
    requires |body| <= |raw| <= MAX_RAW_TX
    requires ListBody(tolerance, raw) == Success(body)
    requires DecodeVersioned(tolerance, body) == Success((op, []))
    requires raw == Payload(op)
    ensures DecodePayload(tolerance, recheck, raw)
         == if !WithinLimits(op) then Failure(Limit) else Success(op)
  {
    hide DecodeVersioned, ListBody, Payload, WithinLimits;
  }

  lemma OversizedPayload(tolerance: Tolerance, recheck: bool, raw: seq<Byte>)
    requires |raw| > MAX_RAW_TX
    ensures DecodePayload(tolerance, recheck, raw) == Failure(Limit)
  {
  }

  /** The payload decoder on the payload of any operation, limits or not. */
  lemma DecodePayloadOfPayload(tolerance: Tolerance, recheck: bool, op: Operation)
    ensures DecodePayload(tolerance, recheck, Payload(op))
         == if |Payload(op)| > MAX_RAW_TX || !WithinLimits(op) then Failure(Limit) else Success(op)
  {
    hide *;
    if |Payload(op)| > MAX_RAW_TX {
      OversizedPayload(tolerance, recheck, Payload(op));
    } else {
      PayloadIsRest(op);
      ReadPrefix(tolerance, op);
      OperationReadsBack(tolerance, op);
      VersionedOfReads(tolerance, op, Rest(op, 0), Rest(op, 1), Rest(op, 2));
      PayloadOfReads(tolerance, recheck, op, Payload(op), Rest(op, 0));
    }
  }

  lemma PayloadIsRest(op: Operation)
    ensures |Rest(op, 2)| <= |Rest(op, 0)| < TWO_64
    ensures Payload(op) == EncodeList(Rest(op, 0)) && |Rest(op, 0)| <= |Payload(op)|
  {
    assert Fields(op)[0..] == Fields(op);
    BodyLength(op);
    RestStep(op, 0);
    RestStep(op, 1);
  }

  lemma ReadPrefix(tolerance: Tolerance, op: Operation)
    ensures ListBody(tolerance, Payload(op)) == Success(Rest(op, 0))
    ensures DecodeString(tolerance, Rest(op, 0)) == Success((PROTOCOL, Rest(op, 1)))
    ensures DecodeUint(tolerance, 1, Rest(op, 1)) == Success((1, Rest(op, 2)))
  {
    PayloadIsRest(op);
    hide Rest, EncodeString, DecodeString, DecodeUint, ListBody, Payload;
    ReadList(tolerance, Rest(op, 0));
    RestStep(op, 0);
    RestStep(op, 1);
    ReadEncodedString(tolerance, PROTOCOL, Rest(op, 1));
    ReadVersion(tolerance, Rest(op, 2));
  }

  lemma ReadVersion(tolerance: Tolerance, rest: seq<Byte>)
    ensures DecodeUint(tolerance, 1, EncodeString([1]) + rest) == Success((1, rest))
  {
    ReadEncodedString(tolerance, [1], rest);
    assert FromBE([1]) == 1;
  }

  predicate Framable(op: Operation, key: Buffer, signature: Buffer) {
    |op.input| + |key| + |signature| <= MAX_ALLOCATION
  }

  /** The wire decoder on any wire encoding, whatever the sizes of its parts: which of its
      results comes out, and in which order its complaints are made. */
  lemma DecodeWireOfEncodeWire(tolerance: Tolerance, recheck: bool, op: Operation, key: Buffer,
                               signature: Buffer)
    requires Framable(op, key, signature)
    ensures DecodeWire(tolerance, recheck, EncodeWire(op, key, signature))
         == if |EncodeWire(op, key, signature)| > MAX_RAW_TX || !WithinLimits(op) then Failure(Limit)
            else if |key| != 33 then Failure(PublicKey)
            else if |signature| != 64 then Failure(Signature)
            else Success((op, key, signature))
  {
    var raw := EncodeWire(op, key, signature);
    WireShape(op, key, signature);
    hide ListBody, SplitWire, DecodePayload, DecodeWire, EncodeWire, WireBody, Payload, WithinLimits;
    if |raw| <= MAX_RAW_TX {
      ReadList(tolerance, WireBody(op, key, signature));
      SplitWireBody(tolerance, op, key, signature);
      DecodePayloadOfPayload(tolerance, recheck, op);
      WireOfReads(tolerance, recheck, raw, WireBody(op, key, signature),
                  WireItems(Payload(op), key, signature, []), op);
    } else {
      OversizedWire(tolerance, recheck, raw);
    }
  }

  lemma OversizedWire(tolerance: Tolerance, recheck: bool, raw: seq<Byte>)
    requires |raw| > MAX_RAW_TX
    ensures DecodeWire(tolerance, recheck, raw) == Failure(Limit)
  {
  }

  lemma WireOfReads(tolerance: Tolerance, recheck: bool, raw: seq<Byte>, body: seq<Byte>,
                    items: WireItems, op: Operation)
    requires 0 < |raw| <= MAX_RAW_TX && raw[0] == TX_TYPE
    requires ListBody(tolerance, raw[1..]) == Success(body)
    requires SplitWire(tolerance, body) == Success(items) && items.rest == []
    requires DecodePayload(tolerance, recheck, items.payload)
          == if !WithinLimits(op) then Failure(Limit) else Success(op)
    requires recheck && |items.key| == 33 && |items.signature| == 64 && WithinLimits(op)
         ==> raw == EncodeWire(op, items.key, items.signature)
    ensures DecodeWire(tolerance, recheck, raw)
         == if !WithinLimits(op) then Failure(Limit)
            else if |items.key| != 33 then Failure(PublicKey)
            else if |items.signature| != 64 then Failure(Signature)
            else Success((op, items.key, items.signature))
  {
    hide ListBody, SplitWire, DecodePayload, EncodeWire;
  }

  lemma WireShape(op: Operation, key: Buffer, signature: Buffer)
    requires Framable(op, key, signature)
    ensures var raw := EncodeWire(op, key, signature);
            && raw != [] && raw[0] == TX_TYPE
            && raw[1..] == EncodeList(WireBody(op, key, signature))
            && |raw| > |Payload(op)|
  {
    hide EncodeString, EncodeList, Payload;
  }

  lemma SplitWireBody(tolerance: Tolerance, op: Operation, key: Buffer, signature: Buffer)
    requires Framable(op, key, signature)
    ensures SplitWire(tolerance, WireBody(op, key, signature))
         == Success(WireItems(Payload(op), key, signature, []))
  {
    hide DecodeString, EncodeString, Payload;
    var p, k, s := EncodeString(Payload(op)), EncodeString(key), EncodeString(signature);
    assert WireBody(op, key, signature) == p + (k + (s + []));
    ReadEncodedString(tolerance, Payload(op), k + (s + []));
    ReadEncodedString(tolerance, key, s + []);
    ReadEncodedString(tolerance, signature, []);
  }

  // ---------------------------------------------------------------- exactness

  /** With the re-encode comparisons, the payload decoder accepts exactly the payloads of the
      operations within limits, however lax its reader is. */
  lemma DecodePayloadExact(tolerance: Tolerance, raw: seq<Byte>, op: Operation)
    ensures DecodePayload(tolerance, true, raw) == Success(op)
       <==> WithinLimits(op) && raw == Payload(op)
  {
    if WithinLimits(op) {
      PayloadWithinSizeLimit(op);
    }
    DecodePayloadOfPayload(tolerance, true, op);
    if DecodePayload(tolerance, true, raw).Success? {
      AcceptedPayloadIsEncoded(tolerance, raw);
    }
    hide DecodePayload, Payload;
  }

  lemma AcceptedPayloadIsEncoded(tolerance: Tolerance, raw: seq<Byte>)
    requires DecodePayload(tolerance, true, raw).Success?
    ensures var op := DecodePayload(tolerance, true, raw).value; WithinLimits(op) && raw == Payload(op)
  {
    hide ListBody, DecodeVersioned, Payload, WithinLimits;
  }

  lemma AcceptedWireIsEncoded(tolerance: Tolerance, raw: seq<Byte>)
    requires DecodeWire(tolerance, true, raw).Success?
    ensures var (op, key, signature) := DecodeWire(tolerance, true, raw).value;
            raw == EncodeWire(op, key, signature)
  {
    hide ListBody, SplitWire, DecodePayload, EncodeWire;
  }

  /** With the re-encode comparisons, the wire decoder accepts exactly the image of the encoder
      over operations within limits, 33-byte keys and 64-byte signatures. */
  lemma DecodeWireExact(tolerance: Tolerance, raw: seq<Byte>, op: Operation, key: seq<Byte>,
                        signature: seq<Byte>)
    ensures DecodeWire(tolerance, true, raw) == Success((op, key, signature))
       <==> && WithinLimits(op) && |key| == 33 && |signature| == 64
            && raw == EncodeWire(op, key, signature)
  {
    if WithinLimits(op) && |key| == 33 && |signature| == 64 {
      DecodeWireOfEncodeWire(tolerance, true, op, key, signature);
      WireWithinSizeLimit(op, key, signature);
    }
    if DecodeWire(tolerance, true, raw) == Success((op, key, signature)) {
      AcceptedWireIsEncoded(tolerance, raw);
    }
    hide DecodeWire, EncodeWire;
  }

  // ---------------------------------------------------------------- size

  const LARGEST_WIRE: nat := 33_066

  lemma StringLength(s: Str, k: nat)
    requires |s| <= k
    ensures k < 56 ==> |EncodeString(s)| <= k + 1
    ensures k < 0x100 ==> |EncodeString(s)| <= k + 2
    ensures k < 0x1_0000 ==> |EncodeString(s)| <= k + 3
  {
    Pow256Widths();
    if |s| < 0x100 {
      ToBELength(|s|, 1);
    } else if |s| < 0x1_0000 {
      ToBELength(|s|, 2);
    }
  }

  lemma NumeralLength(n: U256, width: nat)
    requires width <= 32 && n < Pow256(width)
    ensures |EncodeString(Numeral(n))| <= width + 1
  {
    ToBELength(n, width);
    StringLength(Numeral(n), width);
  }

  lemma BodyBound(op: Operation)
    requires WithinLimits(op)
    ensures |Rest(op, 0)| <= 32_956
  {
    assert EncodeString([1]) == [1];
    hide Rest, EncodeString, Numeral, Pow256;
    RestSteps(op);
    Pow256Widths();
    StringLength(PROTOCOL, 18);
    NumeralLength(op.chainId, 8);
    StringLength(op.genesisHash, 32);
    StringLength(op.sender, 20);
    NumeralLength(op.nonce, 8);
    StringLength(op.to, 20);
    NumeralLength(op.value, 32);
    StringLength(op.input, MAX_CALLDATA);
    NumeralLength(op.gasLimit, 4);
    NumeralLength(op.maxFeePerGas, 16);
    NumeralLength(op.maxPriorityFeePerGas, 16);
  }

  lemma ListLength(body: Str)
    requires |body| < 0x1_0000
    ensures |EncodeList(body)| <= |body| + 3
    ensures |body| >= 0x100 ==> |EncodeList(body)| == |body| + 3
  {
    Pow256Widths();
    ToBELength(|body|, 2);
  }

  lemma PayloadWithinSizeLimit(op: Operation)
    requires WithinLimits(op)
    ensures |Payload(op)| <= 32_959 < MAX_RAW_TX
  {
    BodyBound(op);
    assert Fields(op)[0..] == Fields(op);
    ListLength(Rest(op, 0));
  }

  lemma WireWithinSizeLimit(op: Operation, key: Buffer, signature: Buffer)
    requires WithinLimits(op) && |key| == 33 && |signature| == 64
    ensures |Payload(op)| <= 32_959
    ensures |EncodeWire(op, key, signature)| <= LARGEST_WIRE < MAX_RAW_TX
  {
    PayloadWithinSizeLimit(op);
    hide Payload;
    StringLength(Payload(op), 32_959);
    StringLength(key, 33);
    StringLength(signature, 64);
    ListLength(WireBody(op, key, signature));
  }

  // ---------------------------------------------------------------- injectivity

  /** The payload determines the operation, limits or not. */
  lemma PayloadInjective(x: Operation, y: Operation)
    requires Payload(x) == Payload(y)
    ensures x == y
  {
    BodyLength(x);
    BodyLength(y);
    EncodeListInjective(EncodeStrings(Fields(x)), EncodeStrings(Fields(y)));
    EncodeStringsInjective(Fields(x), Fields(y));
    hide Payload, EncodeStrings;
    forall i | 0 <= i < 12
      ensures Field(x, i) == Field(y, i)
    {
      assert Fields(x)[i] == Fields(y)[i];
    }
    FieldsInjective(x, y);
  }

  lemma FieldsInjective(x: Operation, y: Operation)
    requires forall i :: 0 <= i < 12 ==> Field(x, i) == Field(y, i)
    ensures x == y
  {
    NumeralInjective(x.chainId, y.chainId);
    NumeralInjective(x.nonce, y.nonce);
    NumeralInjective(x.value, y.value);
    NumeralInjective(x.gasLimit, y.gasLimit);
    NumeralInjective(x.maxFeePerGas, y.maxFeePerGas);
    NumeralInjective(x.maxPriorityFeePerGas, y.maxPriorityFeePerGas);
    hide Numeral;
    assert Field(x, 2) == Field(y, 2) && Field(x, 3) == Field(y, 3) && Field(x, 4) == Field(y, 4);
    assert Field(x, 5) == Field(y, 5) && Field(x, 6) == Field(y, 6) && Field(x, 7) == Field(y, 7);
    assert Field(x, 8) == Field(y, 8) && Field(x, 9) == Field(y, 9);
    assert Field(x, 10) == Field(y, 10) && Field(x, 11) == Field(y, 11);
  }

  lemma NumeralInjective(m: U256, n: U256)
    ensures Numeral(m) == Numeral(n) ==> m == n
  {
    FromToBE(m);
    FromToBE(n);
  }

  /** Two different authorizations never share a wire encoding, whatever their sizes. */
  lemma EncodeWireInjective(x: Operation, key: Buffer, signature: Buffer,
                            y: Operation, key': Buffer, signature': Buffer)
    requires Framable(x, key, signature) && Framable(y, key', signature')
    requires EncodeWire(x, key, signature) == EncodeWire(y, key', signature')
    ensures x == y && key == key' && signature == signature'
  {
    WireShape(x, key, signature);
    WireShape(y, key', signature');
    hide EncodeWire, EncodeList, WireBody, SplitWire, Payload;
    EncodeListInjective(WireBody(x, key, signature), WireBody(y, key', signature'));
    SplitWireBody(Strict, x, key, signature);
    SplitWireBody(Strict, y, key', signature');
    PayloadInjective(x, y);
  }

  // ---------------------------------------------------------------- the bound is attained

  /** The operation whose every field is as long as its limits allow. */
  const LARGEST_OPERATION: Operation :=
    Operation(TWO_64 - 1, seq(32, _ => 0), seq(20, _ => 0), TWO_64 - 2, seq(20, _ => 0), TWO_256 - 1,
              seq(MAX_CALLDATA, _ => 0), MAX_GAS, TWO_128 - 1, TWO_128 - 1)

  lemma LongStringLength(s: Str)
    ensures 1 < |s| < 56 ==> |EncodeString(s)| == |s| + 1
    ensures 56 <= |s| < 0x100 ==> |EncodeString(s)| == |s| + 2
    ensures 0x100 <= |s| < 0x1_0000 ==> |EncodeString(s)| == |s| + 3
  {
    Pow256Widths();
    if |s| < 0x100 {
      ToBELength(|s|, 1);
    } else if |s| < 0x1_0000 {
      ToBELength(|s|, 2);
    }
  }

  lemma LongNumeralLength(n: U256, width: nat)
    requires 1 < width <= 32 && Pow256(width - 1) <= n < Pow256(width)
    ensures |EncodeString(Numeral(n))| == width + 1
  {
    ToBELength(n, width);
    LongStringLength(Numeral(n));
  }

  lemma LargestNumerals()
    ensures |EncodeString(Numeral(TWO_64 - 1))| == 9 && |EncodeString(Numeral(TWO_64 - 2))| == 9
    ensures |EncodeString(Numeral(TWO_128 - 1))| == 17 && |EncodeString(Numeral(TWO_256 - 1))| == 33
    ensures |EncodeString(Numeral(MAX_GAS))| == 5
  {
    Pow256Widths();
    assert 256 * Pow256(7) == Pow256(8) && 256 * Pow256(15) == Pow256(16);
    assert 256 * Pow256(31) == Pow256(32);
    LongNumeralLength(TWO_64 - 1, 8);
    LongNumeralLength(TWO_64 - 2, 8);
    LongNumeralLength(TWO_128 - 1, 16);
    LongNumeralLength(TWO_256 - 1, 32);
    LongNumeralLength(MAX_GAS, 4);
  }

  /** The size bound is attained: it cannot be lowered by one byte. */
  lemma SizeBoundAttained(key: Buffer, signature: Buffer)
    requires |key| == 33 && |signature| == 64
    ensures WithinLimits(LARGEST_OPERATION)
    ensures |EncodeWire(LARGEST_OPERATION, key, signature)| == LARGEST_WIRE
  {
    var op := LARGEST_OPERATION;
    LargestBody();
    assert Fields(op)[0..] == Fields(op);
    ListLength(Rest(op, 0));
    LongStringLength(Payload(op));
    LongStringLength(key);
    LongStringLength(signature);
    hide EncodeString, Rest;
    ListLength(WireBody(op, key, signature));
  }

  lemma LargestBody()
    ensures |Rest(LARGEST_OPERATION, 0)| == 32_956
  {
    var op := LARGEST_OPERATION;
    LargestNumerals();
    LongStringLength(PROTOCOL);
    LongStringLength(op.genesisHash);
    LongStringLength(op.sender);
    LongStringLength(op.to);
    LongStringLength(op.input);
    assert EncodeString([1]) == [1];
    hide EncodeString, Numeral, Rest;
    RestSteps(op);
  }
}
