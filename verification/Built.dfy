/** The built payload and its engine API envelopes. */
module Built {
  import opened Wrappers
  import opened Bytes
  import opened Builder

  datatype ConversionError =
    | UnexpectedEip4844Sidecars
    | UnexpectedEip7594Sidecars
    | MissingBlockAccessList

  /** What the envelopes of all versions share; older versions leave the later fields `None`. */
  datatype Envelope = Envelope(
    header: Buffer,
    transactions: seq<PoolTx>,
    blockValue: U256,
    shouldOverrideBuilder: bool,
    blobsBundle: seq<Sidecar>,
    executionRequests: Option<seq<Byte>>,
    accessList: Option<seq<Byte>>)

  function TryIntoV3(p: Payload): Result<Envelope, ConversionError> {
    match p.sidecars
    case Eip7594s(_) => Failure(UnexpectedEip7594Sidecars)
    case Empty => Success(Envelope(p.header, p.transactions, p.fees, false, [], None, None))
    case Eip4844s(list) => Success(Envelope(p.header, p.transactions, p.fees, false, list, None, None))
  }

  /** The requests are taken out of the payload before the rest converts. */
  function TryIntoV4(p: Payload): Result<Envelope, ConversionError> {
    var requests := p.requests.GetOr([]);
    var inner :- TryIntoV3(p.(requests := None));
    Success(inner.(executionRequests := Some(requests)))
  }

  function TryIntoV5(p: Payload): Result<Envelope, ConversionError> {
    var requests := Some(p.requests.GetOr([]));
    match p.sidecars
    case Eip4844s(_) => Failure(UnexpectedEip4844Sidecars)
    case Empty => Success(Envelope(p.header, p.transactions, p.fees, false, [], requests, None))
    case Eip7594s(list) =>
      Success(Envelope(p.header, p.transactions, p.fees, false, list, requests, None))
  }

  function TryIntoV6(p: Payload): Result<Envelope, ConversionError> {
    if p.accessList.None? then Failure(MissingBlockAccessList)
    else
      var inner :- TryIntoV5(p);
      Success(inner.(accessList := p.accessList))
  }
}
