/**
 The payload builder's selection, as a pure recursion over the pool.

 Nothing is accumulated here: every budget is a total over the transactions included so far.
 `BuilderLoop` runs the same selection with counters that wrap as machine integers do.
 */
module Builder {
  import opened Wrappers
  import opened Bytes
  import opened Rlp
  import opened Envelopes

  // ---------------------------------------------------------------- the outside

  datatype PoolTx = PoolTx(sender: Bytes20, tx: Transaction)

  datatype Sidecar = Eip4844(id: nat) | Eip7594(id: nat)

  datatype BlobLookup = Found(sidecar: Sidecar) | Missing | StoreError

  datatype ExecResult =
    | Executed(gasUsed: U64, regularGas: U64, stateGas: U64)
    | NonceTooLow
    | InvalidTx
    | GasLimitMoreThanAvailable
    | Fatal

  /** What has to succeed before the first transaction is looked at. */
  datatype SetupStage = StateLookup | BlockEnvironment | PreExecution

  /** `ThreadPanic` is not an error value of the source: the building thread dies instead. */
  datatype BuilderError =
    | SetupFailed(stage: SetupStage)
    | BlobStore
    | Evm
    | Finish
    | BlockTooLarge
    | MissingPayload
    | ThreadPanic

  datatype FinishedBlock = FinishedBlock(
    header: Buffer,
    requests: seq<Byte>,
    accessList: Option<seq<Byte>>)

  datatype Config = Config(
    amsterdam: bool,
    osaka: bool,
    prague: bool,
    blockGasLimit: U64,
    txGasLimitCap: U64,
    baseFee: U64,
    protocolMaxBlobs: Option<nat>,
    userMaxBlobs: Option<nat>,
    /** The RLP list of the withdrawals, when the block has any. */
    withdrawals: Option<Buffer>)

  /** What the builder asks of its surroundings: the stage its setup fails at, if it does, whether
      the n-th poll finds the job cancelled, the blob store, the executor given what it already
      executed, and the sealing of the block. */
  datatype World = World(
    setup: Option<SetupStage>,
    cancelled: nat -> bool,
    blob: PoolTx -> BlobLookup,
    execute: (seq<PoolTx>, PoolTx) -> ExecResult,
    finish: seq<PoolTx> -> Result<FinishedBlock, BuilderError>)

  /** EIP-7934: ten megabytes less a two-megabyte margin. */
  const MAX_RLP_BLOCK_SIZE: nat := 8_388_608
  const HEADER_ALLOWANCE: nat := 1024

  /** What an executor guarantees: a transaction that executed covered the base fee and used no
      more than it was allowed. */
  ghost predicate Contract(cfg: Config, w: World) {
    forall done, t {:trigger w.execute(done, t)} ::
      w.execute(done, t).Executed? ==> Honest(cfg, t.tx, w.execute(done, t))
  }

  ghost predicate Honest(cfg: Config, tx: Transaction, r: ExecResult)
    requires r.Executed?
  {
    && tx.MaxFeePerGas() >= cfg.baseFee
    && r.gasUsed <= tx.GasLimit()
    && r.regularGas <= Min(tx.GasLimit(), cfg.txGasLimitCap)
    && r.stateGas <= tx.GasLimit()
  }

  // ---------------------------------------------------------------- totals

  /** A transaction that made it into the block. */
  datatype Included = Included(
    pooled: PoolTx,
    sidecar: Option<Sidecar>,
    gasUsed: U64,
    regularGas: U64,
    stateGas: U64,
    tip: nat)

  datatype Measure = GasUsed | RegularGas | StateGas | Blobs | Length | Fees

  function Of(m: Measure, x: Included): nat {
    match m
    case GasUsed => x.gasUsed
    case RegularGas => x.regularGas
    case StateGas => x.stateGas
    case Blobs => x.pooled.tx.BlobCount().GetOr(0)
    case Length => x.pooled.tx.Length()
    case Fees => x.tip * x.gasUsed
  }

  function Total(m: Measure, xs: seq<Included>): nat {
    if xs == [] then 0 else Total(m, xs[..|xs| - 1]) + Of(m, xs[|xs| - 1])
  }

  function Txs(xs: seq<Included>): seq<PoolTx> {
    seq(|xs|, i requires 0 <= i < |xs| => xs[i].pooled)
  }

  function Min(a: int, b: int): (m: int)
    ensures m <= a && m <= b && (m == a || m == b)
  {
    if a < b then a else b
  }

  function SaturatingSub(a: nat, b: nat): (d: nat)
    ensures a <= b + d && (d == 0 || a == b + d)
  {
    if a >= b then a - b else 0
  }

  function ProtocolMaxBlobs(cfg: Config): nat {
    cfg.protocolMaxBlobs.GetOr(0)
  }

  function MaxBlobs(cfg: Config): nat {
    match cfg.userMaxBlobs
    case None => ProtocolMaxBlobs(cfg)
    case Some(limit) =>
      var m := Min(limit, ProtocolMaxBlobs(cfg));
      if m < 1 then 1 else m
  }

  function WithdrawalsLength(cfg: Config): nat {
    match cfg.withdrawals
    case None => 0
    case Some(list) => |list|
  }

  // ---------------------------------------------------------------- the pool iterator

  predicate IsBlob(t: PoolTx): (b: bool)
    ensures b <==> t.tx.Ty() == BLOB_TX_TYPE
  {
    t.tx.BlobCount().Some?
  }

  /** The next transaction a pool offers: the first whose sender is not marked invalid. Once blobs
      are skipped, passing over a blob transaction marks its sender. */
  datatype Pick = Exhausted(invalid: set<Bytes20>) | Yield(index: nat, invalid: set<Bytes20>)

  function Advance(invalid: set<Bytes20>, skipBlobs: bool, pool: seq<PoolTx>): (p: Pick)
    ensures invalid <= p.invalid
    ensures p.Yield? ==>
              && p.index < |pool| && pool[p.index].sender !in p.invalid
              && !(skipBlobs && IsBlob(pool[p.index]))
    ensures forall i :: 0 <= i < (if p.Yield? then p.index else |pool|) ==> pool[i].sender in p.invalid
    decreases |pool|
  {
    if pool == [] then Exhausted(invalid)
    else if pool[0].sender in invalid then Shift(Advance(invalid, skipBlobs, pool[1..]))
    else if skipBlobs && IsBlob(pool[0]) then
      Shift(Advance(invalid + {pool[0].sender}, skipBlobs, pool[1..]))
    else Yield(0, invalid)
  }

  function Shift(p: Pick): Pick {
    match p
    case Exhausted(invalid) => p
    case Yield(index, invalid) => Yield(index + 1, invalid)
  }

  // ---------------------------------------------------------------- judging one transaction

  datatype Reason =
    | ExceedsGasLimit
    | OversizedData
    | TooManyBlobs
    | MissingSidecar
    | UnexpectedSidecar
    | NotExecutable
    | ExceedsBlockGas

  datatype Verdict =
    | Include(item: Included)
    | Reject(reason: Reason)
    | SkipNonceTooLow
    | Cancel
    | Abort(error: BuilderError)
    /** The tip of an executed transaction was assumed to exist and did not. */
    | Crash

  /** How far the selection has got. */
  datatype Selection = Selection(
    included: seq<Included>,
    invalid: set<Bytes20>,
    skipBlobs: bool,
    polls: nat)

  const NOTHING: Selection := Selection([], {}, false, 0)

  predicate OverGas(cfg: Config, done: seq<Included>, tx: Transaction) {
    if cfg.amsterdam then
      || Min(tx.GasLimit(), cfg.txGasLimitCap) > SaturatingSub(cfg.blockGasLimit, Total(RegularGas, done))
      || tx.GasLimit() > SaturatingSub(cfg.blockGasLimit, Total(StateGas, done))
    else tx.GasLimit() > SaturatingSub(cfg.blockGasLimit, Total(GasUsed, done))
  }

  predicate OverSize(cfg: Config, done: seq<Included>, tx: Transaction) {
    && cfg.osaka
    && Total(Length, done) + tx.Length() + WithdrawalsLength(cfg) + HEADER_ALLOWANCE > MAX_RLP_BLOCK_SIZE
  }

  predicate OverBlobs(cfg: Config, done: seq<Included>, tx: Transaction) {
    match tx.BlobCount()
    case None => false
    case Some(n) => Total(Blobs, done) + n > MaxBlobs(cfg)
  }

  predicate RightSidecar(cfg: Config, s: Sidecar) {
    if cfg.osaka then s.Eip7594? else s.Eip4844?
  }

  function JudgeExecution(cfg: Config, w: World, done: seq<Included>, t: PoolTx,
                          sidecar: Option<Sidecar>): Verdict
  {
    match w.execute(Txs(done), t)
    case NonceTooLow => SkipNonceTooLow
    case InvalidTx => Reject(NotExecutable)
    case GasLimitMoreThanAvailable => Reject(ExceedsBlockGas)
    case Fatal => Abort(Evm)
    case Executed(gas, regular, state) =>
      match t.tx.EffectiveTip(cfg.baseFee)
      case None => Crash
      case Some(tip) => Include(Included(t, sidecar, gas, regular, state, tip))
  }

  function Judge(cfg: Config, w: World, s: Selection, t: PoolTx): Verdict {
    if OverGas(cfg, s.included, t.tx) then Reject(ExceedsGasLimit)
    else if w.cancelled(s.polls) then Cancel
    else if OverSize(cfg, s.included, t.tx) then Reject(OversizedData)
    else if !IsBlob(t) then JudgeExecution(cfg, w, s.included, t, None)
    else if OverBlobs(cfg, s.included, t.tx) then Reject(TooManyBlobs)
    else
      match w.blob(t)
      case StoreError => Abort(BlobStore)
      case Missing => Reject(MissingSidecar)
      case Found(sidecar) =>
        if !RightSidecar(cfg, sidecar) then Reject(UnexpectedSidecar)
        else JudgeExecution(cfg, w, s.included, t, Some(sidecar))
  }

  /** The selection after a verdict that lets it go on. */
  function Apply(cfg: Config, s: Selection, t: PoolTx, v: Verdict): Selection {
    var polls := if v == Reject(ExceedsGasLimit) then s.polls else s.polls + 1;
    match v
    case Include(item) =>
      var included := s.included + [item];
      Selection(included, s.invalid,
                s.skipBlobs || (IsBlob(t) && Total(Blobs, included) == MaxBlobs(cfg)), polls)
    case Reject(_) => s.(invalid := s.invalid + {t.sender}, polls := polls)
    case _ => s.(polls := polls)
  }

  // ---------------------------------------------------------------- the selection

  datatype End = Finished | Cancelled | Failed(error: BuilderError) | Panicked

  datatype Event = Event(pooled: PoolTx, verdict: Verdict)

  /** How a run ended, where, and what it said of each transaction the pool yielded before that. */
  datatype Run = Run(end: End, final: Selection, log: seq<Event>)

  datatype Progress =
    | Stop(end: End, final: Selection)
    | Go(event: Event, next: Selection, rest: seq<PoolTx>)

  /** The next yielded transaction, judged. */
  function Step(cfg: Config, w: World, s: Selection, pool: seq<PoolTx>): (p: Progress)
    ensures p.Go? ==> |p.rest| < |pool|
  {
    match Advance(s.invalid, s.skipBlobs, pool)
    case Exhausted(invalid) => Stop(Finished, s.(invalid := invalid))
    case Yield(k, invalid) => React(cfg, w, s.(invalid := invalid), pool[k], pool[k + 1..])
  }

  function React(cfg: Config, w: World, s: Selection, t: PoolTx, rest: seq<PoolTx>): (p: Progress)
    ensures p.Go? ==> p.rest == rest
  {
    match Judge(cfg, w, s, t)
    case Cancel => Stop(Cancelled, s)
    case Abort(e) => Stop(Failed(e), s)
    case Crash => Stop(Panicked, s)
    case v => Go(Event(t, v), Apply(cfg, s, t, v), rest)
  }

  function Greedy(cfg: Config, w: World, s: Selection, pool: seq<PoolTx>): Run
    decreases |pool|
  {
    match Step(cfg, w, s, pool)
    case Stop(end, final) => Run(end, final, [])
    case Go(event, next, rest) =>
      var r := Greedy(cfg, w, next, rest);
      r.(log := [event] + r.log)
  }

  // ---------------------------------------------------------------- the payload

  /** The engine's sidecar collection: it takes the kind of its first element and drops others. */
  datatype BlobSidecars = Empty | Eip4844s(list: seq<Sidecar>) | Eip7594s(list: seq<Sidecar>) {

    function Push(s: Sidecar): BlobSidecars {
      match this
      case Empty => if s.Eip4844? then Eip4844s([s]) else Eip7594s([s])
      case Eip4844s(list) => if s.Eip4844? then Eip4844s(list + [s]) else this
      case Eip7594s(list) => if s.Eip7594? then Eip7594s(list + [s]) else this
    }
  }

  /** The collection after pushing the sidecar of every included transaction that has one. */
  function Bundle(xs: seq<Included>): BlobSidecars {
    if xs == [] then Empty
    else
      var b := Bundle(xs[..|xs| - 1]);
      match xs[|xs| - 1].sidecar
      case None => b
      case Some(s) => b.Push(s)
  }

  datatype Payload = Payload(
    header: Buffer,
    transactions: seq<PoolTx>,
    fees: U256,
    sidecars: BlobSidecars,
    requests: Option<seq<Byte>>,
    accessList: Option<seq<Byte>>)

  datatype BuildOutcome = Better(payload: Payload) | Aborted(fees: U256) | JobCancelled

  function RlpListLength(n: nat): nat {
    HeaderLength(Header(true, n)) + n
  }

  /** The length of the block [header, transactions, ommers = [], withdrawals?]. */
  function BlockLength(cfg: Config, header: nat, transactions: nat): nat {
    RlpListLength(header + RlpListLength(transactions) + 1 + WithdrawalsLength(cfg))
  }

  function TotalFees(xs: seq<Included>): U256 {
    Total(Fees, xs) % TWO_256
  }

  predicate IsBetter(best: Option<Payload>, fees: U256) {
    best.None? || fees > best.value.fees
  }

  function Seal(cfg: Config, w: World, xs: seq<Included>): Result<BuildOutcome, BuilderError> {
    match w.finish(Txs(xs))
    case Failure(e) => Failure(Finish)
    case Success(block) =>
      if cfg.osaka && BlockLength(cfg, |block.header|, Total(Length, xs)) > MAX_RLP_BLOCK_SIZE then
        Failure(BlockTooLarge)
      else
        Success(Better(Payload(block.header, Txs(xs), TotalFees(xs), Bundle(xs),
                               if cfg.prague then Some(block.requests) else None, block.accessList)))
  }

  function Conclude(cfg: Config, w: World, end: End, xs: seq<Included>, best: Option<Payload>)
    : Result<BuildOutcome, BuilderError>
  {
    match end
    case Panicked => Failure(ThreadPanic)
    case Cancelled => Success(JobCancelled)
    case Failed(e) => Failure(e)
    case Finished =>
      if !IsBetter(best, TotalFees(xs)) then Success(Aborted(TotalFees(xs)))
      else Seal(cfg, w, xs)
  }

  function Build(cfg: Config, w: World, pool: seq<PoolTx>, best: Option<Payload>)
    : Result<BuildOutcome, BuilderError>
  {
    match w.setup
    case Some(stage) => Failure(SetupFailed(stage))
    case None =>
      var run := Greedy(cfg, w, NOTHING, pool);
      Conclude(cfg, w, run.end, run.final.included, best)
  }

  /** A build over an empty pool with nothing to beat, whose payload must exist. */
  function BuildEmpty(cfg: Config, w: World): Result<Payload, BuilderError> {
    match Build(cfg, w, [], None)
    case Failure(e) => Failure(e)
    case Success(Better(payload)) => Success(payload)
    case Success(_) => Failure(MissingPayload)
  }
}
