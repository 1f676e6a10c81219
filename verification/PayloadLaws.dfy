/** What the sealed payload of a build is worth: its size, its sidecars, its fees over many builds. */
module PayloadLaws {
  import opened Wrappers
  import opened Bytes
  import opened Rlp
  import opened Envelopes
  import opened Builder
  import opened BuilderLaws
  import opened BuilderVerdicts
  import opened Built

  // ---------------------------------------------------------------- block size

  /** The largest block header the 1 KiB allowance leaves room for. */
  const HEADER_ROOM: nat := 1015

  lemma ListOverhead(n: nat)
    requires n < 0x100_0000
    ensures RlpListLength(n) <= n + 4
    ensures n >= 0x1_0000 ==> RlpListLength(n) == n + 4
  {
    Pow256Widths();
    ToBELength(n, 3);
  }

  /** EIP-7934: the size the loop budgets for is enough for the whole nested block. */
  lemma BlockFits(cfg: Config, xs: seq<Included>, header: nat)
    requires cfg.osaka && WithinBudgets(cfg, xs) && xs != [] && header <= HEADER_ROOM
    ensures BlockLength(cfg, header, Total(Length, xs)) <= MAX_RLP_BLOCK_SIZE
  {
    var transactions := Total(Length, xs);
    ListOverhead(transactions);
    ListOverhead(header + RlpListLength(transactions) + 1 + WithdrawalsLength(cfg));
    hide RlpListLength, Total;
  }

  /** The room left for the header is exact: a full block of at least 64 KiB of transactions fits
      if and only if its header does. */
  lemma HeaderRoomIsTight(cfg: Config, header: nat, transactions: nat)
    requires transactions >= 0x1_0000 && header < 0x1_0000
    requires transactions + WithdrawalsLength(cfg) + HEADER_ALLOWANCE == MAX_RLP_BLOCK_SIZE
    ensures BlockLength(cfg, header, transactions) <= MAX_RLP_BLOCK_SIZE <==> header <= HEADER_ROOM
  {
    ListOverhead(transactions);
    ListOverhead(header + RlpListLength(transactions) + 1 + WithdrawalsLength(cfg));
    hide RlpListLength;
  }

  function BodyBytes(xs: seq<Included>): seq<Byte> {
    if xs == [] then [] else BodyBytes(xs[..|xs| - 1]) + xs[|xs| - 1].pooled.tx.NetworkEncode()
  }

  lemma {:induction false} BodyBytesLength(xs: seq<Included>)
    ensures |BodyBytes(xs)| == Total(Length, xs)
  {
    if xs != [] {
      BodyBytesLength(xs[..|xs| - 1]);
      LengthExact(xs[|xs| - 1].pooled.tx);
    }
  }

  /** The block length that is compared is the length of the block's bytes. */
  lemma BlockLengthExact(cfg: Config, xs: seq<Included>, header: Buffer)
    requires BlockLength(cfg, |header|, Total(Length, xs)) < TWO_64
    ensures |BodyBytes(xs)| < TWO_64
    ensures var withdrawals := cfg.withdrawals.GetOr([]);
            var body := header + EncodeList(BodyBytes(xs)) + EncodeList([]) + withdrawals;
            |body| < TWO_64 && |EncodeList(body)| == BlockLength(cfg, |header|, Total(Length, xs))
  {
    BodyBytesLength(xs);
    var n := Total(Length, xs);
    assert RlpListLength(n) >= n;
    ListBytes(BodyBytes(xs));
    assert EncodeList([]) == [0xC0];
    var body := header + EncodeList(BodyBytes(xs)) + EncodeList([]) + cfg.withdrawals.GetOr([]);
    assert |body| == |header| + RlpListLength(n) + 1 + WithdrawalsLength(cfg);
    assert RlpListLength(|body|) >= |body|;
    ListBytes(body);
  }

  lemma ListBytes(body: Str)
    ensures |EncodeList(body)| == RlpListLength(|body|)
  {
  }

  // ---------------------------------------------------------------- sidecars

  /** The sidecars of the included blob transactions, in block order. */
  function SidecarsOf(xs: seq<Included>): seq<Sidecar> {
    if xs == [] then []
    else
      match xs[|xs| - 1].sidecar
      case None => SidecarsOf(xs[..|xs| - 1])
      case Some(s) => SidecarsOf(xs[..|xs| - 1]) + [s]
  }

  /** What the blob store holds for the blob transactions among `txs`, in order. */
  function StoreSidecars(w: World, txs: seq<PoolTx>): seq<Sidecar> {
    if txs == [] then []
    else
      var t := txs[|txs| - 1];
      var init := StoreSidecars(w, txs[..|txs| - 1]);
      if IsBlob(t) && w.blob(t).Found? then init + [w.blob(t).sidecar] else init
  }

  ghost predicate FromStore(w: World, x: Included) {
    if IsBlob(x.pooled) then
      w.blob(x.pooled).Found? && x.sidecar == Some(w.blob(x.pooled).sidecar)
    else x.sidecar == None
  }

  ghost predicate AllFromStore(w: World, xs: seq<Included>) {
    forall i :: 0 <= i < |xs| ==> FromStore(w, xs[i])
  }

  lemma JudgedFromStore(cfg: Config, w: World, s: Selection, t: PoolTx)
    ensures var v := Judge(cfg, w, s, t); v.Include? ==> v.item.pooled == t && FromStore(w, v.item)
  {
    hide OverGas, OverSize, OverBlobs, Txs, RightSidecar;
  }

  lemma StepFromStore(cfg: Config, w: World, s: Selection, pool: seq<PoolTx>)
    requires AllFromStore(w, s.included)
    ensures var p := Step(cfg, w, s, pool);
            AllFromStore(w, if p.Go? then p.next.included else p.final.included)
  {
    StopKeepsIncluded(cfg, w, s, pool);
    if Step(cfg, w, s, pool).Go? {
      var _ := StepEffect(cfg, w, s, pool);
      IncludedFromStore(cfg, w, s, pool);
    }
    hide Step, FromStore;
  }

  lemma IncludedFromStore(cfg: Config, w: World, s: Selection, pool: seq<PoolTx>)
    requires Step(cfg, w, s, pool).Go?
    ensures var v := Step(cfg, w, s, pool).event.verdict; v.Include? ==> FromStore(w, v.item)
  {
    var p := Advance(s.invalid, s.skipBlobs, pool);
    JudgedFromStore(cfg, w, s.(invalid := p.invalid), pool[p.index]);
    hide Judge, Advance, FromStore;
  }

  lemma {:induction false} GreedyFromStore(cfg: Config, w: World, s: Selection, pool: seq<PoolTx>)
    requires AllFromStore(w, s.included)
    ensures AllFromStore(w, Greedy(cfg, w, s, pool).final.included)
    decreases |pool|
  {
    hide *;
    StepFromStore(cfg, w, s, pool);
    Unfold(cfg, w, s, pool);
    var p := Step(cfg, w, s, pool);
    if p.Go? {
      GreedyFromStore(cfg, w, p.next, p.rest);
    }
  }

  function BlobTxs(txs: seq<PoolTx>): seq<PoolTx> {
    if txs == [] then []
    else
      var t := txs[|txs| - 1];
      var init := BlobTxs(txs[..|txs| - 1]);
      if IsBlob(t) then init + [t] else init
  }

  /** One sidecar per included blob transaction, in order, each the one the store holds for it. */
  lemma {:induction false} SidecarsComplete(w: World, xs: seq<Included>)
    requires AllFromStore(w, xs)
    ensures SidecarsOf(xs) == StoreSidecars(w, Txs(xs))
    ensures |SidecarsOf(xs)| == |BlobTxs(Txs(xs))|
  {
    if xs != [] {
      var init, n := xs[..|xs| - 1], |xs| - 1;
      SidecarsComplete(w, init);
      assert Txs(xs)[..n] == Txs(init);
      assert FromStore(w, xs[n]);
      hide IsBlob;
    }
  }

  /** The collection drops nothing: it is of the fork's kind and holds every sidecar. */
  lemma {:induction false} BundleComplete(cfg: Config, xs: seq<Included>)
    requires forall i :: 0 <= i < |xs| ==> Sound(cfg, xs[i])
    ensures Bundle(xs)
         == if SidecarsOf(xs) == [] then Empty
            else if cfg.osaka then Eip7594s(SidecarsOf(xs)) else Eip4844s(SidecarsOf(xs))
  {
    if xs != [] {
      BundleComplete(cfg, xs[..|xs| - 1]);
      assert Sound(cfg, xs[|xs| - 1]);
    }
  }

  // ---------------------------------------------------------------- conversions

  /** The block of a build. */
  function Block(cfg: Config, w: World, pool: seq<PoolTx>): seq<Included> {
    Greedy(cfg, w, NOTHING, pool).final.included
  }

  lemma BetterPayload(cfg: Config, w: World, pool: seq<PoolTx>, best: Option<Payload>)
    requires Build(cfg, w, pool, best).Success? && Build(cfg, w, pool, best).value.Better?
    ensures var p := Build(cfg, w, pool, best).value.payload;
            var xs := Block(cfg, w, pool);
            && p.transactions == Txs(xs) && p.sidecars == Bundle(xs) && p.fees == TotalFees(xs)
            && (best.Some? ==> best.value.fees < p.fees) && w.finish(Txs(xs)).Success?
            && p.header == w.finish(Txs(xs)).value.header
            && p.accessList == w.finish(Txs(xs)).value.accessList
            && p.requests
            == (if cfg.prague then Some(w.finish(Txs(xs)).value.requests) else None)
  {
    hide Greedy, Txs, Bundle, TotalFees, BlockLength;
  }

  /** A conversion of `p` succeeds exactly when `possible`, and then carries the block and fees of
      `p` and these parts. */
  predicate Converts(p: Payload, r: Result<Envelope, ConversionError>, possible: bool,
                     bundle: seq<Sidecar>, requests: Option<seq<Byte>>,
                     accessList: Option<seq<Byte>>)
  {
    && (r.Success? <==> possible)
    && (r.Success? ==>
          && r.value.header == p.header && r.value.transactions == p.transactions
          && r.value.blockValue == p.fees && !r.value.shouldOverrideBuilder
          && r.value.blobsBundle == bundle
          && r.value.executionRequests == requests
          && r.value.accessList == accessList)
  }

  /** Every payload a build delivers converts to exactly the envelope versions of its fork, and the
      bundle that leaves the node holds what the blob store held for the block's blob transactions,
      in block order. A payload without blobs converts to both families. */
  lemma ConversionsOfBuilt(cfg: Config, w: World, pool: seq<PoolTx>, best: Option<Payload>)
    requires Contract(cfg, w)
    requires Build(cfg, w, pool, best).Success? && Build(cfg, w, pool, best).value.Better?
    ensures var p := Build(cfg, w, pool, best).value.payload;
            var bundle := StoreSidecars(w, p.transactions);
            && |bundle| == |BlobTxs(p.transactions)|
            && Converts(p, TryIntoV3(p), !cfg.osaka || bundle == [], bundle, None, None)
            && Converts(p, TryIntoV4(p), !cfg.osaka || bundle == [], bundle,
                        Some(p.requests.GetOr([])), None)
            && Converts(p, TryIntoV5(p), cfg.osaka || bundle == [], bundle,
                        Some(p.requests.GetOr([])), None)
            && Converts(p, TryIntoV6(p), p.accessList.Some? && (cfg.osaka || bundle == []), bundle,
                        Some(p.requests.GetOr([])), p.accessList)
  {
    var xs := Block(cfg, w, pool);
    BetterPayload(cfg, w, pool, best);
    BuildStaysWithinBudgets(cfg, w, pool);
    GreedyFromStore(cfg, w, NOTHING, pool);
    hide Build, Greedy, Sound, WithinBudgets, Contract, FromStore, Bundle, SidecarsOf, StoreSidecars;
    BundleComplete(cfg, xs);
    SidecarsComplete(w, xs);
  }

  // ---------------------------------------------------------------- the outcome of a build

  lemma {:induction false} RunErrors(cfg: Config, w: World, s: Selection, pool: seq<PoolTx>)
    ensures var end := Greedy(cfg, w, s, pool).end;
            end.Failed? ==> end.error == BlobStore || end.error == Evm
    decreases |pool|
  {
    Unfold(cfg, w, s, pool);
    var p := Step(cfg, w, s, pool);
    hide Greedy, OverGas, OverSize, OverBlobs, Txs, Advance, Apply;
    if p.Go? {
      RunErrors(cfg, w, p.next, p.rest);
    }
  }

  /** The run of a build finishes with fees above the best payload's, so its block is sealed. */
  predicate Wins(cfg: Config, w: World, pool: seq<PoolTx>, best: Option<Payload>) {
    && w.setup.None? && Greedy(cfg, w, NOTHING, pool).end == Finished
    && (best.Some? ==> best.value.fees < TotalFees(Block(cfg, w, pool)))
  }

  /** Every outcome of a build, each with its exact condition. A finished block whose fees do not
      exceed the best payload's is given up; one whose fees do is delivered, unless sealing fails or
      the sealed block is too large. */
  lemma OutcomeExact(cfg: Config, w: World, pool: seq<PoolTx>, best: Option<Payload>)
    ensures var r, end, fees := Build(cfg, w, pool, best), Greedy(cfg, w, NOTHING, pool).end,
                                TotalFees(Block(cfg, w, pool));
            var finish := w.finish(Txs(Block(cfg, w, pool)));
            var fits := finish.Success? && (cfg.osaka ==>
              BlockLength(cfg, |finish.value.header|, Total(Length, Block(cfg, w, pool)))
              <= MAX_RLP_BLOCK_SIZE);
            && (r.Failure? && r.error.SetupFailed? <==> w.setup.Some?)
            && (w.setup.Some? ==> r == Failure(SetupFailed(w.setup.value)))
            && (r == Success(JobCancelled) <==> w.setup.None? && end == Cancelled)
            && (r == Failure(ThreadPanic) <==> w.setup.None? && end == Panicked)
            && (r == Failure(BlobStore) <==> w.setup.None? && end == Failed(BlobStore))
            && (r == Failure(Evm) <==> w.setup.None? && end == Failed(Evm))
            && (r.Success? && r.value.Aborted? <==>
                  w.setup.None? && end == Finished && best.Some? && fees <= best.value.fees)
            && (r.Success? && r.value.Aborted? ==> r.value.fees == fees)
            && (r == Failure(Finish) <==> Wins(cfg, w, pool, best) && finish.Failure?)
            && (r == Failure(BlockTooLarge) <==>
                  Wins(cfg, w, pool, best) && finish.Success? && !fits)
            && (r.Success? && r.value.Better? <==> Wins(cfg, w, pool, best) && fits)
            && r != Failure(MissingPayload)
  {
    RunErrors(cfg, w, NOTHING, pool);
    hide Greedy, Txs, Bundle, TotalFees, BlockLength, Total;
  }

  /** A build whose block turns out too large built an empty block, or got a header the allowance
      has no room for: the size budget guards every transaction, and only transactions. */
  lemma TooLargeOnlyIfEmpty(cfg: Config, w: World, pool: seq<PoolTx>, best: Option<Payload>)
    requires Contract(cfg, w)
    requires Build(cfg, w, pool, best) == Failure(BlockTooLarge)
    ensures var xs := Block(cfg, w, pool);
            cfg.osaka && w.finish(Txs(xs)).Success?
            && (xs == [] || |w.finish(Txs(xs)).value.header| > HEADER_ROOM)
  {
    var xs := Block(cfg, w, pool);
    BuildStaysWithinBudgets(cfg, w, pool);
    RunErrors(cfg, w, NOTHING, pool);
    hide Greedy, Sound, WithinBudgets, Contract, Txs, Bundle, TotalFees, BlockLength;
    if cfg.osaka && xs != [] && w.finish(Txs(xs)).Success?
       && |w.finish(Txs(xs)).value.header| <= HEADER_ROOM {
      BlockFits(cfg, xs, |w.finish(Txs(xs)).value.header|);
    }
  }

  lemma EmptyBlockLength(cfg: Config, header: nat)
    requires header <= HEADER_ROOM
    ensures BlockLength(cfg, header, 0) > MAX_RLP_BLOCK_SIZE
       <==> header + WithdrawalsLength(cfg) + 6 > MAX_RLP_BLOCK_SIZE
  {
    assert RlpListLength(0) == 1;
    var body := header + 2 + WithdrawalsLength(cfg);
    assert RlpListLength(body) >= body;
    if body < 0x100_0000 {
      ListOverhead(body);
    }
    hide RlpListLength;
  }

  /** The build gets as far as a sealed block. */
  predicate Seals(cfg: Config, w: World, pool: seq<PoolTx>, best: Option<Payload>) {
    Wins(cfg, w, pool, best) && w.finish(Txs(Block(cfg, w, pool))).Success?
  }

  /** With a header the allowance has room for, what makes a sealed block too large is its
      withdrawals: the final check fails exactly when header and withdrawals alone do not fit, and
      then nothing was included. */
  lemma TooLargeExact(cfg: Config, w: World, pool: seq<PoolTx>, best: Option<Payload>)
    requires Contract(cfg, w)
    requires Seals(cfg, w, pool, best)
    requires |w.finish(Txs(Block(cfg, w, pool))).value.header| <= HEADER_ROOM
    ensures Build(cfg, w, pool, best) == Failure(BlockTooLarge)
       <==> && cfg.osaka
            && |w.finish(Txs(Block(cfg, w, pool))).value.header| + WithdrawalsLength(cfg) + 6
               > MAX_RLP_BLOCK_SIZE
    ensures Build(cfg, w, pool, best) == Failure(BlockTooLarge) ==> Block(cfg, w, pool) == []
  {
    var xs := Block(cfg, w, pool);
    var header := |w.finish(Txs(xs)).value.header|;
    BuildStaysWithinBudgets(cfg, w, pool);
    EmptyBlockLength(cfg, header);
    assert xs == [] ==> Total(Length, xs) == 0;
    hide Greedy, Sound, WithinBudgets, Contract, Txs, Bundle, TotalFees, BlockLength, Total;
    if cfg.osaka && xs != [] {
      BlockFits(cfg, xs, header);
      RoomForHeader(cfg, xs);
    }
  }

  lemma RoomForHeader(cfg: Config, xs: seq<Included>)
    requires cfg.osaka && WithinBudgets(cfg, xs) && xs != []
    ensures HEADER_ROOM + WithdrawalsLength(cfg) + 6 <= MAX_RLP_BLOCK_SIZE
  {
    hide Total;
  }

  /** A withdrawal of one gwei from validator 1 to the zero address, as an RLP list. */
  const WITHDRAWAL: seq<Byte> := [
    0xD8, 0x01, 0x01, 0x94, 0, 0, 0, 0, 0, 0, 0, 0, 0, 0, 0, 0, 0, 0, 0, 0, 0, 0, 0, 0, 0x01]

  function Withdrawals(n: nat): (b: seq<Byte>)
    ensures |b| == 25 * n
  {
    if n == 0 then [] else Withdrawals(n - 1) + WITHDRAWAL
  }

  /** That does happen: from 335,545 withdrawals on no build of any pool delivers a payload, and the
      empty build, otherwise the fallback, fails with the size error. */
  lemma WithdrawalsCanBeTooLarge(cfg: Config, w: World, n: nat, pool: seq<PoolTx>,
                                 best: Option<Payload>)
    requires 335_545 <= n < 0x1_0000_0000
    requires cfg.osaka && cfg.withdrawals == Some(EncodeList(Withdrawals(n)))
    ensures w.setup.None? && w.finish([]).Success? ==> BuildEmpty(cfg, w) == Failure(BlockTooLarge)
    ensures Build(cfg, w, pool, best).Success? ==> !Build(cfg, w, pool, best).value.Better?
  {
    assert WithdrawalsLength(cfg) > MAX_RLP_BLOCK_SIZE;
    EmptyBuildExact(cfg, w);
    hide BuildEmpty, Greedy, Txs, Bundle, TotalFees, Total;
  }

  /** The empty build never lacks its payload: only setup, sealing or the size check can fail it. */
  lemma EmptyBuildExact(cfg: Config, w: World)
    ensures BuildEmpty(cfg, w)
         == if w.setup.Some? then Failure(SetupFailed(w.setup.value))
            else
              match w.finish([])
              case Failure(_) => Failure(Finish)
              case Success(block) =>
                if cfg.osaka && BlockLength(cfg, |block.header|, 0) > MAX_RLP_BLOCK_SIZE then
                  Failure(BlockTooLarge)
                else
                  Success(Payload(block.header, [], 0, Empty,
                                  if cfg.prague then Some(block.requests) else None, block.accessList))
  {
    assert Greedy(cfg, w, NOTHING, []) == Run(Finished, NOTHING, []);
    assert Txs([]) == [] && Bundle([]) == Empty && TotalFees([]) == 0 && Total(Length, []) == 0;
    hide Greedy, BlockLength, Txs, Bundle, TotalFees, Total;
  }

  lemma BlockNoLongerThanPool(cfg: Config, w: World, pool: seq<PoolTx>)
    ensures |Block(cfg, w, pool)| <= |pool|
  {
    hide Greedy, IsSubsequence, Includes;
    LogAccountsForBlock(cfg, w, NOTHING, pool);
    BlockFollowsPool(cfg, w, NOTHING, pool);
    var log := Greedy(cfg, w, NOTHING, pool).log;
    assert NOTHING.included + Includes(log) == Includes(log);
    SubsequenceIsShorter(Txs(Block(cfg, w, pool)), pool);
  }

  /** The fees a payload reports are exactly what its senders pay for gas beyond the burned base
      fee. Under Amsterdam that takes a pool of fewer than 2^64 transactions. */
  lemma ReportedFees(cfg: Config, w: World, pool: seq<PoolTx>, best: Option<Payload>)
    requires Contract(cfg, w) && (!cfg.amsterdam || |pool| < TWO_64)
    requires Build(cfg, w, pool, best).Success? && Build(cfg, w, pool, best).value.Better?
    ensures var xs := Block(cfg, w, pool);
            Paid(cfg, xs)
            == cfg.baseFee * Total(GasUsed, xs) + Build(cfg, w, pool, best).value.payload.fees
  {
    BetterPayload(cfg, w, pool, best);
    BuildStaysWithinBudgets(cfg, w, pool);
    BlockNoLongerThanPool(cfg, w, pool);
    hide Build, Greedy, Sound, WithinBudgets, Contract, Total, TotalFees, Paid;
    FeesConserved(cfg, Block(cfg, w, pool));
    FeesNeverWrap(cfg, Block(cfg, w, pool));
  }

  datatype Job = Job(cfg: Config, w: World, pool: seq<PoolTx>)

  /** The better payloads of a series of builds, each against the best so far. */
  function Improvements(jobs: seq<Job>, best: Option<Payload>): seq<Payload> {
    if jobs == [] then []
    else
      match Build(jobs[0].cfg, jobs[0].w, jobs[0].pool, best)
      case Success(Better(p)) => [p] + Improvements(jobs[1..], Some(p))
      case _ => Improvements(jobs[1..], best)
  }

  predicate Increasing(best: Option<Payload>, ps: seq<Payload>) {
    && (best.Some? ==> forall i :: 0 <= i < |ps| ==> best.value.fees < ps[i].fees)
    && (forall i, j :: 0 <= i < j < |ps| ==> ps[i].fees < ps[j].fees)
  }

  /** The best payload after a series of builds. */
  function Best(jobs: seq<Job>, best: Option<Payload>): Option<Payload> {
    if jobs == [] then best
    else
      match Build(jobs[0].cfg, jobs[0].w, jobs[0].pool, best)
      case Success(Better(p)) => Best(jobs[1..], Some(p))
      case _ => Best(jobs[1..], best)
  }

  /** What a job delivers with nothing to beat it delivers again, or gives up for a payload that is
      worth no less. */
  lemma DeliveredOrBeaten(job: Job, best: Option<Payload>, p: Payload)
    requires Build(job.cfg, job.w, job.pool, None) == Success(Better(p))
    ensures Build(job.cfg, job.w, job.pool, best)
         == if best.Some? && p.fees <= best.value.fees then Success(Aborted(p.fees))
            else Success(Better(p))
  {
    hide Greedy, Txs, Bundle, TotalFees, BlockLength, Total;
  }

  lemma {:induction false} BestNeverDrops(jobs: seq<Job>, best: Option<Payload>)
    requires best.Some?
    ensures Best(jobs, best).Some? && Best(jobs, best).value.fees >= best.value.fees
  {
    if jobs != [] {
      var r := Build(jobs[0].cfg, jobs[0].w, jobs[0].pool, best);
      hide Build;
      if r.Success? && r.value.Better? {
        BetterPayload(jobs[0].cfg, jobs[0].w, jobs[0].pool, best);
        BestNeverDrops(jobs[1..], Some(r.value.payload));
      } else {
        BestNeverDrops(jobs[1..], best);
      }
    }
  }

  /** No build is wasted: the best payload after a series is worth at least what each of its builds
      would have delivered on its own. */
  lemma {:induction false} BestWins(jobs: seq<Job>, best: Option<Payload>, i: nat, p: Payload)
    requires i < |jobs|
    requires Build(jobs[i].cfg, jobs[i].w, jobs[i].pool, None) == Success(Better(p))
    ensures Best(jobs, best).Some? && Best(jobs, best).value.fees >= p.fees
  {
    if i > 0 {
      var r := Build(jobs[0].cfg, jobs[0].w, jobs[0].pool, best);
      BestWins(jobs[1..], if r.Success? && r.value.Better? then Some(r.value.payload) else best, i - 1, p);
      hide Build;
    } else {
      DeliveredOrBeaten(jobs[0], best, p);
      hide Build;
      var next := if best.Some? && p.fees <= best.value.fees then best else Some(p);
      BestNeverDrops(jobs[1..], next);
    }
  }

  /** The payloads that replace one another lead to the best one. */
  lemma {:induction false} BestIsLastImprovement(jobs: seq<Job>, best: Option<Payload>)
    ensures var ps := Improvements(jobs, best);
            Best(jobs, best) == if ps == [] then best else Some(ps[|ps| - 1])
  {
    if jobs != [] {
      var r := Build(jobs[0].cfg, jobs[0].w, jobs[0].pool, best);
      hide Build;
      BestIsLastImprovement(jobs[1..], if r.Success? && r.value.Better? then Some(r.value.payload) else best);
    }
  }

  lemma IncreasingCons(best: Option<Payload>, p: Payload, ps: seq<Payload>)
    requires best.Some? ==> best.value.fees < p.fees
    requires Increasing(Some(p), ps)
    ensures Increasing(best, [p] + ps)
  {
  }

  /** Over any series of builds of any pools, the payloads that replace one another have strictly
      increasing fees. */
  lemma {:induction false} FeesOnlyImprove(jobs: seq<Job>, best: Option<Payload>)
    ensures Increasing(best, Improvements(jobs, best))
  {
    if jobs != [] {
      var r := Build(jobs[0].cfg, jobs[0].w, jobs[0].pool, best);
      hide Build, Increasing;
      if r.Success? && r.value.Better? {
        var p := r.value.payload;
        BetterPayload(jobs[0].cfg, jobs[0].w, jobs[0].pool, best);
        FeesOnlyImprove(jobs[1..], Some(p));
        IncreasingCons(best, p, Improvements(jobs[1..], Some(p)));
      } else {
        FeesOnlyImprove(jobs[1..], best);
      }
    }
  }

  // ---------------------------------------------------------------- the blob limit

  /** The effective blob limit respects the protocol's exactly when no operator limit is set or the
      protocol allows a blob at all: an operator limit is raised to one. */
  lemma BlobLimitRespectsProtocol(cfg: Config)
    ensures MaxBlobs(cfg) <= ProtocolMaxBlobs(cfg)
       <==> cfg.userMaxBlobs == None || ProtocolMaxBlobs(cfg) >= 1
  {
  }

  /** So a block stays within the protocol's blob limit in those cases. */
  lemma BlobsWithinProtocol(cfg: Config, w: World, pool: seq<PoolTx>)
    requires Contract(cfg, w)
    requires cfg.userMaxBlobs == None || ProtocolMaxBlobs(cfg) >= 1
    ensures Total(Blobs, Block(cfg, w, pool)) <= ProtocolMaxBlobs(cfg)
  {
    BuildStaysWithinBudgets(cfg, w, pool);
    BlobLimitRespectsProtocol(cfg);
    hide Greedy, Total;
  }

  lemma {:induction false} BlobsTakeRoom(xs: seq<Included>)
    requires Total(Blobs, xs) > 0
    ensures Total(Length, xs) >= 2
  {
    if Of(Blobs, xs[|xs| - 1]) == 0 {
      BlobsTakeRoom(xs[..|xs| - 1]);
    }
  }

  /** Whether the smallest blob transaction fits beside the withdrawals. */
  predicate RoomForBlob(cfg: Config) {
    cfg.osaka ==> WithdrawalsLength(cfg) + 2 + HEADER_ALLOWANCE <= MAX_RLP_BLOCK_SIZE
  }

  /** A transaction with one blob that asks for no gas and pays the base fee. */
  function OneBlob(cfg: Config): PoolTx {
    PoolTx(seq(20, _ => 0), Ethereum(EthereumTx(BLOB_TX_TYPE, [], 0, cfg.baseFee, Some(0), 1)))
  }

  /** An executor that checks base fees and gas, and leaves the number of blobs to the builder. */
  function BlobWorld(cfg: Config): World {
    World(None, _ => false, _ => Found(if cfg.osaka then Eip7594(0) else Eip4844(0)),
          (done, t) => if t == OneBlob(cfg) then Executed(0, 0, 0) else InvalidTx,
          txs => Success(FinishedBlock([], [], None)))
  }

  lemma OneBlobIncluded(cfg: Config) returns (item: Included)
    requires MaxBlobs(cfg) >= 1 && RoomForBlob(cfg)
    ensures Greedy(cfg, BlobWorld(cfg), NOTHING, [OneBlob(cfg)]).end == Finished
    ensures Block(cfg, BlobWorld(cfg), [OneBlob(cfg)]) == [item] && Of(Blobs, item) == 1
  {
    var w, t := BlobWorld(cfg), OneBlob(cfg);
    var v := Judge(cfg, w, NOTHING, t);
    assert v.Include?;
    item := v.item;
    var next := Apply(cfg, NOTHING, t, v);
    assert Step(cfg, w, NOTHING, [t]) == Go(Event(t, v), next, []);
    assert next.included == [item];
    assert Greedy(cfg, w, next, []).final.included == [item];
  }

  /** Wherever a protocol without blobs meets an operator's limit, a payload with a blob is
      delivered, unless withdrawals leave no room for it. */
  lemma BlobLimitExceeded(cfg: Config) returns (w: World, pool: seq<PoolTx>)
    requires cfg.userMaxBlobs.Some? && ProtocolMaxBlobs(cfg) == 0 && RoomForBlob(cfg)
    ensures Contract(cfg, w)
    ensures Build(cfg, w, pool, None).Success? && Build(cfg, w, pool, None).value.Better?
    ensures Total(Blobs, Block(cfg, w, pool)) > ProtocolMaxBlobs(cfg)
  {
    w, pool := BlobWorld(cfg), [OneBlob(cfg)];
    var item := OneBlobIncluded(cfg);
    BuildStaysWithinBudgets(cfg, w, pool);
    var xs := [item];
    assert Total(Blobs, xs) == Of(Blobs, item) by {
      assert xs[..0] == [];
    }
    hide Greedy, Total, BlockLength;
    if cfg.osaka {
      BlockFits(cfg, xs, 0);
    }
  }

  /** No block of any pool, whatever an honest executor does, has more blobs than the protocol
      allows. */
  ghost predicate RespectsProtocol(cfg: Config) {
    forall w, pool :: Contract(cfg, w) ==> Total(Blobs, Block(cfg, w, pool)) <= ProtocolMaxBlobs(cfg)
  }

  /** When the builder itself, without help from the executor, keeps the protocol's blob limit. */
  lemma RespectsProtocolExact(cfg: Config)
    ensures RespectsProtocol(cfg)
       <==> cfg.userMaxBlobs == None || ProtocolMaxBlobs(cfg) >= 1 || !RoomForBlob(cfg)
  {
    hide Total, Block, Contract, RoomForBlob;
    if cfg.userMaxBlobs == None || ProtocolMaxBlobs(cfg) >= 1 || !RoomForBlob(cfg) {
      forall w, pool | Contract(cfg, w)
        ensures Total(Blobs, Block(cfg, w, pool)) <= ProtocolMaxBlobs(cfg)
      {
        if cfg.userMaxBlobs == None || ProtocolMaxBlobs(cfg) >= 1 {
          BlobsWithinProtocol(cfg, w, pool);
        } else {
          NoRoomNoBlobs(cfg, w, pool);
        }
      }
    } else {
      var w, pool := BlobLimitExceeded(cfg);
    }
  }

  lemma NoRoomNoBlobs(cfg: Config, w: World, pool: seq<PoolTx>)
    requires Contract(cfg, w) && !RoomForBlob(cfg)
    ensures Total(Blobs, Block(cfg, w, pool)) == 0
  {
    var xs := Block(cfg, w, pool);
    BuildStaysWithinBudgets(cfg, w, pool);
    if Total(Blobs, xs) > 0 {
      BlobsTakeRoom(xs);
    }
    hide Greedy, Total;
  }

  /** An executor that refuses a transaction with more blobs than the protocol allows a block. */
  ghost predicate CapsBlobs(cfg: Config, w: World) {
    forall done, t {:trigger w.execute(done, t)} ::
      w.execute(done, t).Executed? ==> t.tx.BlobCount().GetOr(0) <= ProtocolMaxBlobs(cfg)
  }

  ghost predicate EachCapped(cfg: Config, xs: seq<Included>) {
    forall i :: 0 <= i < |xs| ==> Of(Blobs, xs[i]) <= ProtocolMaxBlobs(cfg)
  }

  lemma StepCapped(cfg: Config, w: World, s: Selection, pool: seq<PoolTx>)
    requires CapsBlobs(cfg, w) && EachCapped(cfg, s.included)
    ensures var p := Step(cfg, w, s, pool);
            EachCapped(cfg, if p.Go? then p.next.included else p.final.included)
  {
    StopKeepsIncluded(cfg, w, s, pool);
    if Step(cfg, w, s, pool).Go? {
      var _ := StepEffect(cfg, w, s, pool);
      StepExplained(cfg, w, s, pool);
    }
    hide Step, Txs, OverGas, OverSize, OverBlobs, ProtocolMaxBlobs;
  }

  lemma {:induction false} GreedyCapped(cfg: Config, w: World, s: Selection, pool: seq<PoolTx>)
    requires CapsBlobs(cfg, w) && EachCapped(cfg, s.included)
    ensures EachCapped(cfg, Greedy(cfg, w, s, pool).final.included)
    decreases |pool|
  {
    hide *;
    StepCapped(cfg, w, s, pool);
    Unfold(cfg, w, s, pool);
    var p := Step(cfg, w, s, pool);
    if p.Go? {
      GreedyCapped(cfg, w, p.next, p.rest);
    }
  }

  lemma {:induction false} NoBlobs(xs: seq<Included>)
    requires forall i :: 0 <= i < |xs| ==> Of(Blobs, xs[i]) == 0
    ensures Total(Blobs, xs) == 0
  {
    if xs != [] {
      NoBlobs(xs[..|xs| - 1]);
    }
  }

  /** A limit on each transaction is all the help the builder needs: with such an executor every
      block keeps the protocol's limit, whatever the operator set. */
  lemma TransactionCapSuffices(cfg: Config, w: World, pool: seq<PoolTx>)
    requires Contract(cfg, w) && CapsBlobs(cfg, w)
    ensures Total(Blobs, Block(cfg, w, pool)) <= ProtocolMaxBlobs(cfg)
  {
    hide Greedy, Total, CapsBlobs, Contract;
    if ProtocolMaxBlobs(cfg) >= 1 {
      BlobsWithinProtocol(cfg, w, pool);
    } else {
      GreedyCapped(cfg, w, NOTHING, pool);
      NoBlobs(Block(cfg, w, pool));
    }
  }
}
