/**
 The payload builder as the source runs it: an iterator that is told what to drop, an executor that
 keeps its state, and accumulators of machine width. It computes `Builder.Build`.
 */
module BuilderLoop {
  import opened Wrappers
  import opened Bytes
  import opened Envelopes
  import opened Builder
  import opened BuilderLaws

  /** The pool's best transactions, in order. */
  class BestTransactions {
    var remaining: seq<PoolTx>
    var invalid: set<Bytes20>
    var skipBlobs: bool

    constructor (pool: seq<PoolTx>)
      ensures remaining == pool && invalid == {} && !skipBlobs
    {
      remaining, invalid, skipBlobs := pool, {}, false;
    }

    method Next() returns (t: Option<PoolTx>)
      modifies this
      ensures skipBlobs == old(skipBlobs)
      ensures match Advance(old(invalid), old(skipBlobs), old(remaining))
              case Exhausted(marked) => t == None && invalid == marked
              case Yield(k, marked) =>
                && t == Some(old(remaining)[k]) && invalid == marked
                && remaining == old(remaining)[k + 1..]
    {
      ghost var n := 0;
      while remaining != []
        invariant n <= |old(remaining)| && remaining == old(remaining)[n..]
        invariant skipBlobs == old(skipBlobs)
        invariant Advance(old(invalid), old(skipBlobs), old(remaining))
               == ShiftBy(Advance(invalid, skipBlobs, remaining), n)
        decreases |remaining|
      {
        var best := remaining[0];
        remaining := remaining[1..];
        if best.sender in invalid {
        } else if skipBlobs && IsBlob(best) {
          MarkInvalid(best);
        } else {
          return Some(best);
        }
        n := n + 1;
      }
      return None;
    }

    method MarkInvalid(t: PoolTx)
      modifies this`invalid
      ensures invalid == old(invalid) + {t.sender}
    {
      invalid := invalid + {t.sender};
    }

    method SkipBlobs()
      modifies this`skipBlobs
      ensures skipBlobs
    {
      skipBlobs := true;
    }
  }

  ghost function ShiftBy(p: Pick, n: nat): Pick {
    match p
    case Exhausted(invalid) => p
    case Yield(index, invalid) => Yield(index + n, invalid)
  }

  /** The block under construction: a failed execution leaves it as it was. */
  class BlockBuilder {
    const w: World
    var executed: seq<PoolTx>

    constructor (w: World)
      ensures this.w == w && executed == []
    {
      this.w := w;
      executed := [];
    }

    method Execute(t: PoolTx) returns (r: ExecResult)
      modifies this
      ensures r == w.execute(old(executed), t)
      ensures executed == if r.Executed? then old(executed) + [t] else old(executed)
    {
      r := w.execute(executed, t);
      if r.Executed? {
        executed := executed + [t];
      }
    }
  }

  lemma Wrap64(a: nat, b: nat)
    ensures (a % TWO_64 + b) % TWO_64 == (a + b) % TWO_64
  {
  }

  lemma Wrap256(a: nat, b: nat)
    ensures (a % TWO_256 + b) % TWO_256 == (a + b) % TWO_256
  {
  }

  /** One more transaction, in every measure and at every width. */
  lemma TotalsAppend(xs: seq<Included>, x: Included)
    ensures Total(GasUsed, xs + [x]) % TWO_64 == (Total(GasUsed, xs) % TWO_64 + x.gasUsed) % TWO_64
    ensures Total(RegularGas, xs + [x]) % TWO_64 == (Total(RegularGas, xs) % TWO_64 + x.regularGas) % TWO_64
    ensures Total(StateGas, xs + [x]) % TWO_64 == (Total(StateGas, xs) % TWO_64 + x.stateGas) % TWO_64
    ensures TotalFees(xs + [x]) == (TotalFees(xs) + x.tip * x.gasUsed) % TWO_256
    ensures Total(Blobs, xs + [x]) == Total(Blobs, xs) + x.pooled.tx.BlobCount().GetOr(0)
    ensures Total(Length, xs + [x]) == Total(Length, xs) + x.pooled.tx.Length()
    ensures Bundle(xs + [x]) == if x.sidecar.None? then Bundle(xs) else Bundle(xs).Push(x.sidecar.value)
  {
    assert (xs + [x])[..|xs|] == xs;
    TotalAppend(GasUsed, xs, x);
    TotalAppend(RegularGas, xs, x);
    TotalAppend(StateGas, xs, x);
    TotalAppend(Fees, xs, x);
    TotalAppend(Blobs, xs, x);
    TotalAppend(Length, xs, x);
    hide Total;
    Wrap64(Total(GasUsed, xs), x.gasUsed);
    Wrap64(Total(RegularGas, xs), x.regularGas);
    Wrap64(Total(StateGas, xs), x.stateGas);
    Wrap256(Total(Fees, xs), x.tip * x.gasUsed);
  }

  /** The accumulators of one build. Gas counters wrap at 64 bits, fees at 256. */
  class Tally {
    var gasUsed: U64
    var regularGas: U64
    var stateGas: U64
    var fees: U256
    var blobs: nat
    var length: nat
    var sidecars: BlobSidecars

    /** The accumulators stand for the totals over `xs`, each reduced to its width. */
    ghost predicate Tracks(xs: seq<Included>)
      reads this
    {
      && gasUsed == Total(GasUsed, xs) % TWO_64
      && regularGas == Total(RegularGas, xs) % TWO_64
      && stateGas == Total(StateGas, xs) % TWO_64
      && fees == TotalFees(xs)
      && blobs == Total(Blobs, xs)
      && length == Total(Length, xs)
      && sidecars == Bundle(xs)
    }

    constructor ()
      ensures Tracks([])
    {
      gasUsed, regularGas, stateGas, fees, blobs, length := 0, 0, 0, 0, 0, 0;
      sidecars := Empty;
    }

    method Add(item: Included, ghost xs: seq<Included>)
      requires Tracks(xs)
      modifies this
      ensures Tracks(xs + [item])
      ensures gasUsed == (old(gasUsed) + item.gasUsed) % TWO_64
      ensures regularGas == (old(regularGas) + item.regularGas) % TWO_64
      ensures stateGas == (old(stateGas) + item.stateGas) % TWO_64
      ensures fees == (old(fees) + item.tip * item.gasUsed) % TWO_256
      ensures length == old(length) + item.pooled.tx.Length()
      ensures !IsBlob(item.pooled) ==> blobs == old(blobs)
    {
      TotalsAppend(xs, item);
      hide Total, Bundle;
      if item.pooled.tx.BlobCount().Some? {
        blobs := blobs + item.pooled.tx.BlobCount().value;
      }
      length := length + item.pooled.tx.Length();
      fees := (fees + item.tip * item.gasUsed) % TWO_256;
      gasUsed := (gasUsed + item.gasUsed) % TWO_64;
      regularGas := (regularGas + item.regularGas) % TWO_64;
      stateGas := (stateGas + item.stateGas) % TWO_64;
      if item.sidecar.Some? {
        sidecars := sidecars.Push(item.sidecar.value);
      }
    }

    /** While the budgets hold, the counters the gas check reads have not wrapped and its saturating
        subtractions do not saturate. */
    lemma CountersExact(cfg: Config, xs: seq<Included>)
      requires Tracks(xs) && WithinBudgets(cfg, xs)
      ensures !cfg.amsterdam ==>
                && gasUsed == Total(GasUsed, xs)
                && SaturatingSub(cfg.blockGasLimit, gasUsed) == cfg.blockGasLimit - gasUsed
      ensures cfg.amsterdam ==>
                && regularGas == Total(RegularGas, xs) && stateGas == Total(StateGas, xs)
                && SaturatingSub(cfg.blockGasLimit, regularGas) == cfg.blockGasLimit - regularGas
                && SaturatingSub(cfg.blockGasLimit, stateGas) == cfg.blockGasLimit - stateGas
    {
      hide Total, TotalFees, Bundle, MaxBlobs;
    }

    method ExceedsGasLimit(cfg: Config, tx: Transaction, ghost xs: seq<Included>) returns (b: bool)
      requires Tracks(xs) && WithinBudgets(cfg, xs)
      ensures b == OverGas(cfg, xs, tx)
    {
      CountersExact(cfg, xs);
      hide Total, TotalFees, Bundle, MaxBlobs;
      if cfg.amsterdam {
        var regularAvailable := SaturatingSub(cfg.blockGasLimit, regularGas);
        var stateAvailable := SaturatingSub(cfg.blockGasLimit, stateGas);
        if Min(tx.GasLimit(), cfg.txGasLimitCap) > regularAvailable {
          return true;
        }
        return tx.GasLimit() > stateAvailable;
      } else {
        return tx.GasLimit() > SaturatingSub(cfg.blockGasLimit, gasUsed);
      }
    }
  }

  method RunTransaction(cfg: Config, builder: BlockBuilder, ghost xs: seq<Included>, t: PoolTx,
                        sidecar: Option<Sidecar>) returns (v: Verdict)
    requires builder.executed == Txs(xs)
    modifies builder
    ensures v == JudgeExecution(cfg, builder.w, xs, t, sidecar)
    ensures builder.executed == if v.Include? || v.Crash? then Txs(xs) + [t] else Txs(xs)
  {
    hide Txs;
    var minerFee := t.tx.EffectiveTip(cfg.baseFee);
    var result := builder.Execute(t);
    match result {
      case NonceTooLow => v := SkipNonceTooLow;
      case InvalidTx => v := Reject(NotExecutable);
      case GasLimitMoreThanAvailable => v := Reject(ExceedsBlockGas);
      case Fatal => v := Abort(Evm);
      case Executed(gas, regular, state) =>
        v := if minerFee.None? then Crash
             else Include(Included(t, sidecar, gas, regular, state, minerFee.value));
    }
  }

  /** One iteration's checks, in the order the source makes them. */
  method Assess(cfg: Config, tally: Tally, builder: BlockBuilder, ghost s: Selection, polls: nat,
                t: PoolTx) returns (v: Verdict)
    requires tally.Tracks(s.included) && WithinBudgets(cfg, s.included)
    requires builder.executed == Txs(s.included) && polls == s.polls
    modifies builder
    ensures v == Judge(cfg, builder.w, s, t)
    ensures builder.executed == if v.Include? || v.Crash? then Txs(s.included) + [t] else Txs(s.included)
  {
    hide Txs, OverGas, JudgeExecution, WithinBudgets, TotalFees, Bundle, Total, MaxBlobs;
    var exceeds := tally.ExceedsGasLimit(cfg, t.tx, s.included);
    if exceeds {
      return Reject(ExceedsGasLimit);
    }
    if builder.w.cancelled(polls) {
      return Cancel;
    }
    var estimate := tally.length + t.tx.Length() + WithdrawalsLength(cfg) + HEADER_ALLOWANCE;
    if cfg.osaka && estimate > MAX_RLP_BLOCK_SIZE {
      return Reject(OversizedData);
    }
    var sidecar := None;
    var count := t.tx.BlobCount();
    if count.Some? {
      if tally.blobs + count.value > MaxBlobs(cfg) {
        return Reject(TooManyBlobs);
      }
      match builder.w.blob(t) {
        case StoreError => return Abort(BlobStore);
        case Missing => return Reject(MissingSidecar);
        case Found(found) =>
          if !RightSidecar(cfg, found) {
            return Reject(UnexpectedSidecar);
          }
          sidecar := Some(found);
      }
    }
    v := RunTransaction(cfg, builder, s.included, t, sidecar);
  }

  lemma TxsAppend(xs: seq<Included>, x: Included)
    ensures Txs(xs + [x]) == Txs(xs) + [x.pooled]
  {
  }

  /** A run ends where the run from its next step ends. */
  lemma EndsAlike(cfg: Config, w: World, s: Selection, pool: seq<PoolTx>)
    ensures match Step(cfg, w, s, pool)
            case Stop(end, final) =>
              Greedy(cfg, w, s, pool).end == end && Greedy(cfg, w, s, pool).final == final
            case Go(_, next, rest) =>
              && Greedy(cfg, w, s, pool).end == Greedy(cfg, w, next, rest).end
              && Greedy(cfg, w, s, pool).final == Greedy(cfg, w, next, rest).final
  {
    hide Step;
    Unfold(cfg, w, s, pool);
  }

  /** Sealing and the size check, once the fees beat the best payload so far. */
  method Finish(cfg: Config, w: World, tally: Tally, builder: BlockBuilder, ghost xs: seq<Included>,
                best: Option<Payload>) returns (r: Result<BuildOutcome, BuilderError>)
    requires tally.Tracks(xs) && builder.executed == Txs(xs) && builder.w == w
    ensures r == Conclude(cfg, w, Finished, xs, best)
  {
    hide Txs, Total, TotalFees, Bundle, BlockLength;
    if !IsBetter(best, tally.fees) {
      return Success(Aborted(tally.fees));
    }
    match w.finish(builder.executed) {
      case Failure(_) => return Failure(BuilderError.Finish);
      case Success(block) =>
        if cfg.osaka && BlockLength(cfg, |block.header|, tally.length) > MAX_RLP_BLOCK_SIZE {
          return Failure(BlockTooLarge);
        }
        var requests := if cfg.prague then Some(block.requests) else None;
        return Success(Better(Payload(block.header, builder.executed, tally.fees, tally.sidecars,
                                      requests, block.accessList)));
    }
  }

  lemma StepOfNext(cfg: Config, w: World, s: Selection, pool: seq<PoolTx>)
    ensures Advance(s.invalid, s.skipBlobs, pool).Exhausted? ==>
              Step(cfg, w, s, pool)
              == Stop(Finished, s.(invalid := Advance(s.invalid, s.skipBlobs, pool).invalid))
    ensures Advance(s.invalid, s.skipBlobs, pool).Yield? ==>
              var Yield(k, marked) := Advance(s.invalid, s.skipBlobs, pool);
              Step(cfg, w, s, pool)
              == React(cfg, w, s.(invalid := marked), pool[k], pool[k + 1..])
  {
    hide React, Advance;
  }

  /** Nothing is included yet. */
  lemma NothingKept(cfg: Config)
    ensures Txs([]) == [] && Kept(cfg, [])
  {
  }

  /** The builder: the same outcome as the pure selection, for every pool and every honest executor.
      It terminates because the pool is finite. */
  method DefaultEthereumPayload(cfg: Config, w: World, pool: seq<PoolTx>, best: Option<Payload>)
    returns (r: Result<BuildOutcome, BuilderError>)
    requires Contract(cfg, w)
    ensures r == Build(cfg, w, pool, best)
  {
    NothingKept(cfg);
    hide Greedy, Step, Judge, Txs, Sound, WithinBudgets, Contract, Total, TotalFees, Bundle, MaxBlobs,
         Advance, Seal;
    if w.setup.Some? {
      return Failure(SetupFailed(w.setup.value));
    }
    var bestTxs := new BestTransactions(pool);
    var builder := new BlockBuilder(w);
    var tally := new Tally();
    var polls := 0;
    ghost var s := NOTHING;
    while true
      invariant Kept(cfg, s.included)
      invariant tally.Tracks(s.included) && builder.executed == Txs(s.included) && builder.w == w
      invariant s.invalid == bestTxs.invalid && s.skipBlobs == bestTxs.skipBlobs && s.polls == polls
      invariant Greedy(cfg, w, s, bestTxs.remaining).end == Greedy(cfg, w, NOTHING, pool).end
      invariant Greedy(cfg, w, s, bestTxs.remaining).final == Greedy(cfg, w, NOTHING, pool).final
      decreases |bestTxs.remaining|
    {
      StepOfNext(cfg, w, s, bestTxs.remaining);
      StepKeeps(cfg, w, s, bestTxs.remaining);
      EndsAlike(cfg, w, s, bestTxs.remaining);
      var next := bestTxs.Next();
      s := s.(invalid := bestTxs.invalid);
      if next.None? {
        break;
      }
      var t := next.value;
      var v := Assess(cfg, tally, builder, s, polls, t);
      match v {
        case Cancel => return Success(JobCancelled);
        case Abort(e) => return Failure(e);
        case Crash => return Failure(ThreadPanic);
        case Reject(_) => bestTxs.MarkInvalid(t);
        case SkipNonceTooLow =>
        case Include(item) =>
          JudgedItem(cfg, w, s, t);
          TxsAppend(s.included, item);
          tally.Add(item, s.included);
          if IsBlob(t) && tally.blobs == MaxBlobs(cfg) {
            bestTxs.SkipBlobs();
          }
      }
      polls := if v == Reject(ExceedsGasLimit) then polls else polls + 1;
      s := Apply(cfg, s, t, v);
    }
    r := Finish(cfg, w, tally, builder, s.included, best);
  }
}
