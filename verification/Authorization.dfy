/**
 The canonical authorization: one operation, one byte string, one sign document.

 The functions say what the encoders and decoders compute. `AuthorizationBuffers` holds the
 methods that compute it with output vectors and advancing slices.
 */
module Authorization {
  import opened Wrappers
  import opened Bytes
  import opened Rlp
  import opened RlpBuffers
  import opened Crypto
  import Base64
  import Bech32

  const CHAIN_ID: U64 := 366036
  const GENESIS_HASH: Bytes32 := [
    0x09, 0x17, 0x1e, 0x11, 0x7a, 0xf6, 0x61, 0x18, 0x5d, 0x9a, 0x4a, 0x4f, 0xf7, 0xcf, 0x83, 0xd2,
    0x9b, 0x4b, 0x99, 0x89, 0x3b, 0xc9, 0x5b, 0x20, 0x4c, 0x0e, 0x6e, 0x0a, 0x6d, 0x6a, 0x52, 0x72]
  const TX_TYPE: Byte := 0x7e
  const MAX_CALLDATA: nat := 32 * 1024
  const MAX_RAW_TX: nat := MAX_CALLDATA + 512
  const MIN_GAS: nat := 21_000
  const MAX_GAS: nat := 30_000_000

  /** The ASCII bytes of `reth-cosmos-adr036`. */
  const PROTOCOL: Str := [
    0x72, 0x65, 0x74, 0x68, 0x2d, 0x63, 0x6f, 0x73, 0x6d, 0x6f, 0x73, 0x2d,
    0x61, 0x64, 0x72, 0x30, 0x33, 0x36]

  datatype Operation = Operation(
    chainId: U64,
    genesisHash: Bytes32,
    sender: Bytes20,
    nonce: U64,
    to: Bytes20,
    value: U256,
    input: Buffer,
    gasLimit: U64,
    maxFeePerGas: U128,
    maxPriorityFeePerGas: U128)

  datatype AuthError = Encoding | Limit | Domain | PublicKey | Sender | Signature

  predicate WithinLimits(op: Operation) {
    && |op.input| <= MAX_CALLDATA
    && MIN_GAS <= op.gasLimit <= MAX_GAS
    && op.nonce != TWO_64 - 1
    && op.maxPriorityFeePerGas <= op.maxFeePerGas
  }

  // ---------------------------------------------------------------- payload

  /** The shortest numeral of a machine integer, as the content of an RLP string. */
  function Numeral(n: U256): (s: Str)
    ensures |s| <= 32 && s == ToBE(n)
  {
    Pow256Widths();
    ToBELength(n, 32);
    ToBE(n)
  }

  /** The items of the versioned list. */
  function Field(op: Operation, i: nat): Str
    requires i < 12
  {
    match i
    case 0 => PROTOCOL
    case 1 => [1]
    case 2 => Numeral(op.chainId)
    case 3 => op.genesisHash
    case 4 => op.sender
    case 5 => Numeral(op.nonce)
    case 6 => op.to
    case 7 => Numeral(op.value)
    case 8 => op.input
    case 9 => Numeral(op.gasLimit)
    case 10 => Numeral(op.maxFeePerGas)
    case 11 => Numeral(op.maxPriorityFeePerGas)
  }

  function Fields(op: Operation): seq<Str> {
    seq(12, i requires 0 <= i < 12 => Field(op, i))
  }

  lemma EncodeStringsUnroll(items: seq<Str>)
    ensures forall i :: 0 <= i < |items| ==>
              EncodeStrings(items[i..]) == EncodeString(items[i]) + EncodeStrings(items[i + 1..])
  {
    forall i | 0 <= i < |items|
      ensures EncodeStrings(items[i..]) == EncodeString(items[i]) + EncodeStrings(items[i + 1..])
    {
      ReadEncodedStrings(Strict, items, i);
    }
  }

  lemma {:induction false} ShortStringsLength(items: seq<Str>)
    requires forall i :: 0 <= i < |items| ==> |items[i]| <= 32
    ensures |EncodeStrings(items)| <= 41 * |items|
  {
    if items != [] {
      ShortStringsLength(items[1..]);
    }
  }

  lemma {:induction false} EncodeStringsConcat(xs: seq<Str>, ys: seq<Str>)
    ensures EncodeStrings(xs + ys) == EncodeStrings(xs) + EncodeStrings(ys)
  {
    if xs == [] {
      assert xs + ys == ys;
    } else {
      assert (xs + ys)[1..] == xs[1..] + ys;
      EncodeStringsConcat(xs[1..], ys);
    }
  }

  /** Calldata is the only item of unbounded length. */
  lemma BodyLength(op: Operation)
    ensures |EncodeStrings(Fields(op))| <= |op.input| + 500
  {
    var f := Fields(op);
    EncodeStringsConcat(f[..8], f[8..]);
    ShortStringsLength(f[..8]);
    ShortStringsLength(f[9..]);
    assert f == f[..8] + f[8..];
    assert f[8..][1..] == f[9..];
  }

  function Payload(op: Operation): (p: Str)
    ensures |p| <= |op.input| + 509
  {
    BodyLength(op);
    EncodeList(EncodeStrings(Fields(op)))
  }

  function ListBody(tolerance: Tolerance, raw: seq<Byte>): (r: Result<seq<Byte>, AuthError>)
    ensures r.Success? ==> |r.value| <= |raw|
  {
    var (h, used) :- Convert(DecodeHeader(tolerance, raw), Encoding);
    if !h.list || |raw| - used != h.payloadLength then Failure(Encoding)
    else Success(raw[used..])
  }

  function DecodeU64(tolerance: Tolerance, buf: seq<Byte>): Result<(U64, seq<Byte>), AuthError> {
    var (n, rest) :- Convert(DecodeUint(tolerance, 8, buf), Encoding);
    DecodeUintBound(tolerance, 8, buf);
    Success((n, rest))
  }

  function DecodeU128(tolerance: Tolerance, buf: seq<Byte>): Result<(U128, seq<Byte>), AuthError> {
    var (n, rest) :- Convert(DecodeUint(tolerance, 16, buf), Encoding);
    DecodeUintBound(tolerance, 16, buf);
    Success((n, rest))
  }

  function DecodeU256(tolerance: Tolerance, buf: seq<Byte>): Result<(U256, seq<Byte>), AuthError> {
    var (n, rest) :- Convert(DecodeUint(tolerance, 32, buf), Encoding);
    DecodeUintBound(tolerance, 32, buf);
    Success((n, rest))
  }

  /** The first five fields of an operation. */
  datatype Route = Route(chainId: U64, genesisHash: Bytes32, sender: Bytes20, nonce: U64, to: Bytes20)

  function DecodeRoute(tolerance: Tolerance, buf: seq<Byte>)
    : Result<(Route, seq<Byte>), AuthError>
  {
    var (chainId, b1) :- DecodeU64(tolerance, buf);
    var (genesisHash, b2) :- Convert(DecodeFixed(tolerance, 32, b1), Encoding);
    var (sender, b3) :- Convert(DecodeFixed(tolerance, 20, b2), Encoding);
    var (nonce, b4) :- DecodeU64(tolerance, b3);
    var (to, b5) :- Convert(DecodeFixed(tolerance, 20, b4), Encoding);
    Success((Route(chainId, genesisHash, sender, nonce, to), b5))
  }

  lemma DecodeRouteShrinks(tolerance: Tolerance, buf: seq<Byte>)
    ensures var r := DecodeRoute(tolerance, buf); r.Success? ==> |r.value.1| <= |buf|
  {
    hide DecodeString;
  }

  /** The ten fields of an operation, in order. */
  function DecodeOperation(tolerance: Tolerance, buf: seq<Byte>)
    : Result<(Operation, seq<Byte>), AuthError>
    requires |buf| <= MAX_RAW_TX
  {
    var (route, b5) :- DecodeRoute(tolerance, buf);
    DecodeRouteShrinks(tolerance, buf);
    var (value, b6) :- DecodeU256(tolerance, b5);
    assert |b6| <= |b5|;
    var (input, b7) :- Convert(DecodeString(tolerance, b6), Encoding);
    var (gasLimit, b8) :- DecodeU64(tolerance, b7);
    var (maxFee, b9) :- DecodeU128(tolerance, b8);
    var (maxPriorityFee, b10) :- DecodeU128(tolerance, b9);
    Success((Operation(route.chainId, route.genesisHash, route.sender, route.nonce, route.to, value,
                       input, gasLimit, maxFee, maxPriorityFee), b10))
  }

  /** The protocol name, version 1 and the operation they announce. */
  function DecodeVersioned(tolerance: Tolerance, body: seq<Byte>)
    : Result<(Operation, seq<Byte>), AuthError>
    requires |body| <= MAX_RAW_TX
  {
    var (protocol, b1) :- Convert(DecodeString(tolerance, body), Encoding);
    var (version, b2) :- Convert(DecodeUint(tolerance, 1, b1), Encoding);
    if protocol != PROTOCOL || version != 1 then Failure(Encoding)
    else DecodeOperation(tolerance, b2)
  }

  /** `recheck` says whether the decoded operation is encoded again and compared with the input,
      as the source does; `false` is the decoder without that comparison. */
  function DecodePayload(tolerance: Tolerance, recheck: bool, raw: seq<Byte>)
    : (r: Result<Operation, AuthError>)
    ensures r.Success? ==> WithinLimits(r.value)
  {
    if |raw| > MAX_RAW_TX then Failure(Limit)
    else
      var body :- ListBody(tolerance, raw);
      var (op, rest) :- DecodeVersioned(tolerance, body);
      if rest != [] || (recheck && Payload(op) != raw) then Failure(Encoding)
      else if !WithinLimits(op) then Failure(Limit)
      else Success(op)
  }

  // ---------------------------------------------------------------- wire

  function WireBody(op: Operation, key: Buffer, signature: Buffer): (b: Str)
    requires |op.input| + |key| + |signature| <= MAX_ALLOCATION
    ensures |b| <= |op.input| + |key| + |signature| + 536
  {
    EncodeString(Payload(op)) + EncodeString(key) + EncodeString(signature)
  }

  function EncodeWire(op: Operation, key: Buffer, signature: Buffer): (raw: seq<Byte>)
    requires |op.input| + |key| + |signature| <= MAX_ALLOCATION
  {
    [TX_TYPE] + EncodeList(WireBody(op, key, signature))
  }

  /** The three strings of the outer list, and what follows them in its body. */
  datatype WireItems = WireItems(payload: Str, key: Str, signature: Str, rest: seq<Byte>)

  function SplitWire(tolerance: Tolerance, body: seq<Byte>): (r: Result<WireItems, AuthError>)
    ensures r.Success? ==> |r.value.payload| + |r.value.key| + |r.value.signature| <= |body|
  {
    var (payload, b1) :- Convert(DecodeString(tolerance, body), Encoding);
    var (key, b2) :- Convert(DecodeString(tolerance, b1), Encoding);
    var (signature, b3) :- Convert(DecodeString(tolerance, b2), Encoding);
    Success(WireItems(payload, key, signature, b3))
  }

  function DecodeWire(tolerance: Tolerance, recheck: bool, raw: seq<Byte>)
    : (r: Result<(Operation, seq<Byte>, seq<Byte>), AuthError>)
    ensures r.Success? ==> WithinLimits(r.value.0) && |r.value.1| == 33 && |r.value.2| == 64
  {
    if |raw| > MAX_RAW_TX then Failure(Limit)
    else if raw == [] || raw[0] != TX_TYPE then Failure(Encoding)
    else
      var body :- ListBody(tolerance, raw[1..]);
      var items :- SplitWire(tolerance, body);
      var op :- DecodePayload(tolerance, recheck, items.payload);
      if |items.key| != 33 then Failure(PublicKey)
      else if |items.signature| != 64 then Failure(Signature)
      else if items.rest != []
           || (recheck && EncodeWire(op, items.key, items.signature) != raw) then Failure(Encoding)
      else Success((op, items.key, items.signature))
  }

  // ---------------------------------------------------------------- sign document

  const MESSAGE_HEAD := "{" + "\"type\":\"sign/MsgSignData\"," + "\"value\":" + "{\"data\":\""
  const DOCUMENT_HEAD :=
    "{" + ("\"account_number\":\"0\","
    + ("\"chain_id\":\"\","
    + ("\"fee\":" + "{\"amount\":[],\"gas\":\"0\"}" + ","
    + ("\"memo\":\"\","
    + ("\"msgs\":" + ("[" + MESSAGE_HEAD))))))
  const DOCUMENT_MIDDLE := "\",\"signer\":\""
  const DOCUMENT_TAIL := "\"}}],\"sequence\":\"0\"}"

  /** The ADR-036 Amino document over given data and signer strings. */
  function Document(data: string, signer: string): string {
    DOCUMENT_HEAD + (data + (DOCUMENT_MIDDLE + (signer + DOCUMENT_TAIL)))
  }

  function SignBytes(crypto: Crypto, op: Operation): string {
    Document(Base64.Encode(Payload(op)), Bech32.Address(op.sender, crypto.checksum))
  }

  // ---------------------------------------------------------------- verification

  function DeriveSender(crypto: Crypto, key: seq<Byte>): Result<Bytes20, AuthError> {
    if |key| != 33 || (key[0] != 2 && key[0] != 3) then Failure(PublicKey)
    else if !crypto.onCurve(key) then Failure(PublicKey)
    else Success(crypto.account(key))
  }

  /** The two scalars of a 64-byte signature, each nonzero and below the group order. */
  function ParseSignature(signature: seq<Byte>): Result<(nat, nat), AuthError> {
    if |signature| != 64 then Failure(Signature)
    else
      var (r, s) := (FromBE(signature[..32]), FromBE(signature[32..]));
      if r == 0 || r >= ORDER || s == 0 || s >= ORDER then Failure(Signature)
      else Success((r, s))
  }

  function Verify(crypto: Crypto, op: Operation, key: seq<Byte>, signature: seq<Byte>,
                  genesis: Bytes32): Result<Bytes20, AuthError> {
    if !WithinLimits(op) then Failure(Limit)
    else if op.chainId != CHAIN_ID || op.genesisHash != genesis then Failure(Domain)
    else
      var sender :- DeriveSender(crypto, key);
      if op.sender != sender then Failure(Sender)
      else
        var (r, s) :- ParseSignature(signature);
        if s > ORDER / 2 then Failure(Signature)
        else if !crypto.onCurve(key) then Failure(PublicKey)
        else if !crypto.signed(key, SignBytes(crypto, op), r, s) then Failure(Signature)
        else Success(sender)
  }
}
