/** Transaction types and the tag the database stores for them. */
module TxTypes {
  import opened Wrappers
  import opened Bytes
  import opened RlpBuffers
  import Authorization

  predicate Supported(ty: Byte) {
    ty == Authorization.TX_TYPE || ty <= 4
  }

  datatype TxType = TxType(ty: Byte)
  type CosmosTxType = t: TxType | Supported(t.ty) witness TxType(0)

  const COSMOS: CosmosTxType := TxType(Authorization.TX_TYPE)

  /** A failed assertion, unwrap or index in code that trusts the database. */
  datatype Panic =
    | CorruptType
    | CorruptParity
    | CorruptHeader
    | CorruptSize
    | CorruptPayload
    | CorruptKey
    | TrailingFields
    | CorruptOperation
    | CorruptTransaction
    | CorruptEthereum

  function TryFrom(ty: Byte): Result<CosmosTxType, Byte> {
    if Supported(ty) then Success(TxType(ty)) else Failure(ty)
  }

  /** The two-bit identifier of a type, and the byte that follows when two bits do not suffice. */
  function Tag(t: CosmosTxType): (nat, seq<Byte>) {
    if t.ty < 3 then (t.ty, []) else (3, [t.ty])
  }

  method ToCompact(t: CosmosTxType, buf: Writer) returns (identifier: nat)
    modifies buf
    ensures (identifier, buf.bytes) == (Tag(t).0, old(buf.bytes) + Tag(t).1)
  {
    if t.ty < 3 {
      assert buf.bytes + [] == buf.bytes;
      return t.ty;
    }
    buf.Put([t.ty]);
    return 3;
  }

  function FromCompact(buf: seq<Byte>, identifier: nat): Result<(CosmosTxType, seq<Byte>), Panic> {
    if identifier == 3 && buf == [] then Failure(CorruptType)
    else if identifier > 255 then Failure(CorruptType)
    else
      var (ty, rest) := if identifier == 3 then (buf[0], buf[1..]) else (identifier, buf);
      match TryFrom(ty)
      case Failure(_) => Failure(CorruptType)
      case Success(t) => Success((t, rest))
  }

  /** A stored tag reads back as its type and leaves what follows it; among the identifiers two
      bits can hold, nothing but a tag or a spelled-out small type reads at all. */
  lemma TagExact(t: CosmosTxType, identifier: nat, buf: seq<Byte>, rest: seq<Byte>)
    requires identifier <= 3
    ensures FromCompact(Tag(t).1 + rest, Tag(t).0) == Success((t, rest))
    ensures FromCompact(buf, identifier) == Success((t, rest))
       <==> || (identifier, buf) == (Tag(t).0, Tag(t).1 + rest)
            || (identifier == 3 && t.ty < 3 && buf == [t.ty] + rest)
  {
    if identifier == 3 && buf != [] {
      assert buf == [buf[0]] + buf[1..];
    }
    assert ([t.ty] + rest)[1..] == rest;
    assert [] + rest == rest;
  }
}
