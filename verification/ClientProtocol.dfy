/**
 The client's own encoder: unbounded integers, byte strings of any length and the tree-shaped RLP
 writer of the `ethers` library. `None` stands for a thrown error.
 */
module ClientProtocol {
  import opened Wrappers
  import opened Bytes
  import opened Rlp
  import opened Authorization
  import opened Canonical

  datatype ClientOperation = ClientOperation(
    chainId: int,
    genesisHash: seq<Byte>,
    sender: seq<Byte>,
    nonce: int,
    to: seq<Byte>,
    value: int,
    input: seq<Byte>,
    gasLimit: int,
    maxFeePerGas: int,
    maxPriorityFeePerGas: int)

  // ---------------------------------------------------------------- RLP over trees

  datatype Tree = Leaf(data: seq<Byte>) | Node(children: seq<Tree>)

  /** A body behind its length; no body of 2^64 bytes or more exists to be framed. */
  function Frame(short: Byte, long: Byte, body: seq<Byte>): Option<seq<Byte>>
    requires short <= 0xC0 && long <= 0xF7
  {
    if |body| >= TWO_64 then None
    else if |body| <= 55 then Some([short + |body|] + body)
    else
      Pow256Widths();
      ToBELength(|body|, 8);
      Some([long + |ToBE(|body|)|] + ToBE(|body|) + body)
  }

  function EncodeTree(t: Tree): Option<seq<Byte>> {
    match t
    case Leaf(data) =>
      if |data| == 1 && data[0] <= 0x7f then Some(data) else Frame(0x80, 0xB7, data)
    case Node(children) =>
      match EncodeTrees(children)
      case None => None
      case Some(body) => Frame(0xC0, 0xF7, body)
  }

  function EncodeTrees(ts: seq<Tree>): Option<seq<Byte>> {
    if ts == [] then Some([])
    else
      match (EncodeTree(ts[0]), EncodeTrees(ts[1..]))
      case (Some(x), Some(y)) => Some(x + y)
      case _ => None
  }

  // ---------------------------------------------------------------- the protocol

  const NAME := "reth-cosmos-adr036"

  function Ascii(s: string): seq<Byte>
    requires forall c :: c in s ==> c as int < 128
  {
    seq(|s|, i requires 0 <= i < |s| => assert s[i] in s; AsciiByte(s[i]))
  }

  function AsciiByte(c: char): Byte
    requires c as int < 128
  {
    c as int
  }

  function Integer(n: int, limit: int): Option<seq<Byte>> {
    if n < 0 || n >= limit then None else Some(ToBE(n))
  }

  function Fixed(value: seq<Byte>, length: nat): Option<seq<Byte>> {
    if |value| != length then None else Some(value)
  }

  /** A list of leaves, unless making one of them failed. */
  function Leaves(fields: seq<Option<seq<Byte>>>): Option<Tree> {
    if forall i :: 0 <= i < |fields| ==> fields[i].Some? then
      Some(Node(seq(|fields|, i requires 0 <= i < |fields| => Leaf(fields[i].value))))
    else None
  }

  function ClientFields(op: ClientOperation): seq<Option<seq<Byte>>> {
    [Some(Ascii(NAME)), Some([1]), Integer(op.chainId, TWO_64), Fixed(op.genesisHash, 32),
     Fixed(op.sender, 20), Integer(op.nonce, TWO_64), Fixed(op.to, 20), Integer(op.value, TWO_256),
     Some(op.input), Integer(op.gasLimit, TWO_64), Integer(op.maxFeePerGas, TWO_128),
     Integer(op.maxPriorityFeePerGas, TWO_128)]
  }

  function ClientPayload(op: ClientOperation): Option<seq<Byte>> {
    if |op.input| > 32768 then None
    else if op.gasLimit < 21000 || op.gasLimit > 30000000 then None
    else if op.maxPriorityFeePerGas > op.maxFeePerGas then None
    else if op.nonce == TWO_64 - 1 then None
    else
      match Leaves(ClientFields(op))
      case None => None
      case Some(tree) => EncodeTree(tree)
  }

  function ClientRaw(op: ClientOperation, key: seq<Byte>, signature: seq<Byte>): Option<seq<Byte>> {
    match ClientPayload(op)
    case None => None
    case Some(payload) =>
      match EncodeTree(Node([Leaf(payload), Leaf(key), Leaf(signature)]))
      case None => None
      case Some(list) => Some([0x7e] + list)
  }

  // ---------------------------------------------------------------- agreement

  /** The node's operation that a client operation writes down. */
  ghost predicate Describes(c: ClientOperation, op: Operation) {
    && c.chainId == op.chainId && c.genesisHash == op.genesisHash && c.sender == op.sender
    && c.nonce == op.nonce && c.to == op.to && c.value == op.value && c.input == op.input
    && c.gasLimit == op.gasLimit && c.maxFeePerGas == op.maxFeePerGas
    && c.maxPriorityFeePerGas == op.maxPriorityFeePerGas
  }

  lemma LeafIsString(s: Str)
    ensures EncodeTree(Leaf(s)) == Some(EncodeString(s))
  {
  }

  lemma FrameIsList(body: Str)
    ensures Frame(0xC0, 0xF7, body) == Some(EncodeList(body))
  {
  }

  /** The tree writer on a list of leaves is the field-by-field writer. */
  lemma {:induction false} LeavesAreStrings(fields: seq<Str>, ts: seq<Tree>)
    requires |ts| == |fields|
    requires forall i :: 0 <= i < |ts| ==> ts[i] == Leaf(fields[i])
    ensures EncodeTrees(ts) == Some(EncodeStrings(fields))
  {
    if ts != [] {
      LeafIsString(fields[0]);
      hide EncodeTree, EncodeString;
      LeavesAreStrings(fields[1..], ts[1..]);
    }
  }

  lemma ListOfLeaves(fields: seq<Str>, ts: seq<Tree>)
    requires |ts| == |fields|
    requires forall i :: 0 <= i < |ts| ==> ts[i] == Leaf(fields[i])
    requires |EncodeStrings(fields)| < TWO_64
    ensures EncodeTree(Node(ts)) == Some(EncodeList(EncodeStrings(fields)))
  {
    LeavesAreStrings(fields, ts);
    FrameIsList(EncodeStrings(fields));
  }

  lemma NameIsProtocol()
    ensures Ascii(NAME) == PROTOCOL
  {
  }

  lemma FieldsAgree(c: ClientOperation, op: Operation)
    requires Describes(c, op)
    ensures forall i :: 0 <= i < 12 ==> ClientFields(c)[i] == Some(Field(op, i))
  {
    NameIsProtocol();
    hide Ascii, ToBE, PROTOCOL;
    var f := ClientFields(c);
    assert f[0] == Some(Field(op, 0)) && f[1] == Some(Field(op, 1)) && f[2] == Some(Field(op, 2));
    assert f[3] == Some(Field(op, 3)) && f[4] == Some(Field(op, 4)) && f[5] == Some(Field(op, 5));
    assert f[6] == Some(Field(op, 6)) && f[7] == Some(Field(op, 7)) && f[8] == Some(Field(op, 8));
    assert f[9] == Some(Field(op, 9)) && f[10] == Some(Field(op, 10));
    assert f[11] == Some(Field(op, 11));
  }

  /** On the operations both sides can write down, the encoders agree byte for byte. */
  lemma PayloadsAgree(c: ClientOperation, op: Operation)
    requires Describes(c, op)
    ensures ClientPayload(c) == if WithinLimits(op) then Some(Payload(op)) else None
  {
    FieldsAgree(c, op);
    BodyLength(op);
    var fields := ClientFields(c);
    var ts := seq(12, i requires 0 <= i < 12 => Leaf(Field(op, i)));
    hide EncodeTree, EncodeStrings, Field, EncodeList, ToBE, ClientFields;
    assert Leaves(fields) == Some(Node(ts)) by {
      assert |fields| == 12;
      var us := seq(|fields|, i requires 0 <= i < |fields| => Leaf(fields[i].value));
      assert us == ts;
    }
    ListOfLeaves(Fields(op), ts);
  }

  /** The operation a client operation describes, if its integers fit. */
  lemma SuccessDescribes(c: ClientOperation) returns (op: Operation)
    requires ClientPayload(c).Some?
    ensures Describes(c, op) && WithinLimits(op)
  {
    var f := ClientFields(c);
    hide EncodeTree, Ascii, ToBE;
    assert f[2].Some? && f[3].Some? && f[4].Some? && f[5].Some? && f[6].Some? && f[7].Some?;
    assert f[10].Some? && f[11].Some?;
    op := Operation(c.chainId, c.genesisHash, c.sender, c.nonce, c.to, c.value, c.input, c.gasLimit,
                    c.maxFeePerGas, c.maxPriorityFeePerGas);
  }

  /** The client succeeds exactly when every field fits its width and the node's limits hold, and
      then its bytes are the node's. */
  lemma ClientPayloadExact(c: ClientOperation, raw: seq<Byte>)
    ensures ClientPayload(c) == Some(raw)
       <==> exists op :: Describes(c, op) && WithinLimits(op) && raw == Payload(op)
  {
    hide ClientPayload, Payload;
    if ClientPayload(c) == Some(raw) {
      var op := SuccessDescribes(c);
      PayloadsAgree(c, op);
    }
    if op :| Describes(c, op) && WithinLimits(op) && raw == Payload(op) {
      PayloadsAgree(c, op);
    }
  }

  lemma ThreeLeaves(payload: Str, key: Str, signature: Str)
    requires |payload| + |key| + |signature| + 27 < TWO_64
    ensures EncodeTree(Node([Leaf(payload), Leaf(key), Leaf(signature)]))
         == Some(EncodeList(EncodeString(payload) + EncodeString(key) + EncodeString(signature)))
  {
    var fields := [payload, key, signature];
    EncodeStringsUnroll(fields);
    var body := EncodeString(payload) + EncodeString(key) + EncodeString(signature);
    hide EncodeTree, EncodeString, EncodeList;
    assert fields[0..] == fields && fields[3..] == [];
    assert EncodeStrings(fields) == body by {
      assert EncodeStrings([]) == [];
      hide EncodeStrings;
      assert EncodeStrings(fields[2..]) == EncodeString(signature) + [];
      assert EncodeString(payload) + (EncodeString(key) + (EncodeString(signature) + [])) == body;
    }
    ListOfLeaves(fields, [Leaf(payload), Leaf(key), Leaf(signature)]);
  }

  /** The raw transaction the client builds is the node's wire encoding of the same operation, and
      the node's decoder gives back what the client encoded. */
  lemma ClientRawDecodes(c: ClientOperation, key: Buffer, signature: Buffer, raw: seq<Byte>)
    requires |key| == 33 && |signature| == 64
    ensures ClientRaw(c, key, signature) == Some(raw)
       <==> exists op :: Describes(c, op)
                      && DecodeWire(Strict, true, raw) == Success((op, key, signature))
  {
    hide ClientPayload, EncodeTree, Payload, DecodeWire;
    if ClientPayload(c).Some? {
      var op := SuccessDescribes(c);
      RawOfDescribed(c, op, key, signature);
      DecodeWireExact(Strict, raw, op, key, signature);
    }
    if op :| Describes(c, op) && DecodeWire(Strict, true, raw) == Success((op, key, signature)) {
      DecodeWireExact(Strict, raw, op, key, signature);
      RawOfDescribed(c, op, key, signature);
    }
  }

  lemma RawOfDescribed(c: ClientOperation, op: Operation, key: Buffer, signature: Buffer)
    requires Describes(c, op) && WithinLimits(op) && |key| == 33 && |signature| == 64
    ensures ClientRaw(c, key, signature) == Some(EncodeWire(op, key, signature))
  {
    PayloadsAgree(c, op);
    hide ClientPayload, Payload, EncodeTree, EncodeString, EncodeList;
    ThreeLeaves(Payload(op), key, signature);
  }
}
