/** Why the builder's selection says what it says: every verdict, every early stop and every marked
    sender has exactly the cause the budgets, the job and the outside give it. */
module BuilderVerdicts {
  import opened Wrappers
  import opened Bytes
  import opened Envelopes
  import opened Builder
  import opened BuilderLaws

  // ---------------------------------------------------------------- the budgets outright

  /** A transaction that asks for gas fits what is left; a zero request always does. */
  predicate FitsGas(cfg: Config, done: seq<Included>, tx: Transaction) {
    var limit, capped := tx.GasLimit(), Min(tx.GasLimit(), cfg.txGasLimitCap);
    if cfg.amsterdam then
      && (capped == 0 || Total(RegularGas, done) + capped <= cfg.blockGasLimit)
      && (limit == 0 || Total(StateGas, done) + limit <= cfg.blockGasLimit)
    else limit == 0 || Total(GasUsed, done) + limit <= cfg.blockGasLimit
  }

  predicate FitsSize(cfg: Config, done: seq<Included>, tx: Transaction) {
    cfg.osaka ==>
      Total(Length, done) + tx.Length() + WithdrawalsLength(cfg) + HEADER_ALLOWANCE <= MAX_RLP_BLOCK_SIZE
  }

  /** The blob schedule in force allows `k` blobs; without one, none are allowed. */
  predicate ProtocolAllows(cfg: Config, k: nat) {
    k == 0 || (cfg.protocolMaxBlobs.Some? && k <= cfg.protocolMaxBlobs.value)
  }

  /** A block may hold `k` blobs: as many as the protocol allows, and under an operator's limit no
      more than that either, but always one. */
  predicate AllowsBlobs(cfg: Config, k: nat) {
    match cfg.userMaxBlobs
    case None => ProtocolAllows(cfg, k)
    case Some(limit) => k <= 1 || (k <= limit && ProtocolAllows(cfg, k))
  }

  /** The effective limit is the largest number of blobs a block may hold. */
  lemma MaxBlobsExact(cfg: Config, k: nat)
    ensures k <= MaxBlobs(cfg) <==> AllowsBlobs(cfg, k)
  {
  }

  predicate FitsBlobs(cfg: Config, done: seq<Included>, tx: Transaction) {
    AllowsBlobs(cfg, Total(Blobs, done) + tx.BlobCount().GetOr(0))
  }

  /** The three checks turn away exactly what does not fit; the saturating subtractions of the gas
      check make no difference. */
  lemma ChecksExact(cfg: Config, done: seq<Included>, tx: Transaction)
    ensures OverGas(cfg, done, tx) <==> !FitsGas(cfg, done, tx)
    ensures OverSize(cfg, done, tx) <==> !FitsSize(cfg, done, tx)
    ensures tx.BlobCount().Some? ==> (OverBlobs(cfg, done, tx) <==> !FitsBlobs(cfg, done, tx))
  {
    if tx.BlobCount().Some? {
      MaxBlobsExact(cfg, Total(Blobs, done) + tx.BlobCount().value);
    }
    hide Total, MaxBlobs, AllowsBlobs;
  }

  // ---------------------------------------------------------------- one verdict

  /** The transaction fits the gas left, the job was not cancelled when asked for the `polls`-th
      time, and the transaction fits the size left. */
  ghost predicate GoesOn(cfg: Config, w: World, done: seq<Included>, polls: nat, t: PoolTx) {
    FitsGas(cfg, done, t.tx) && !w.cancelled(polls) && FitsSize(cfg, done, t.tx)
  }

  /** A blob transaction has its sidecar, of the kind of the fork. */
  ghost predicate HasSidecar(cfg: Config, w: World, t: PoolTx) {
    w.blob(t).Found? && (w.blob(t).sidecar.Eip7594? <==> cfg.osaka)
  }

  /** Everything before execution lets the transaction through. */
  ghost predicate Executes(cfg: Config, w: World, done: seq<Included>, polls: nat, t: PoolTx) {
    && GoesOn(cfg, w, done, polls, t)
    && (IsBlob(t) ==> FitsBlobs(cfg, done, t.tx) && HasSidecar(cfg, w, t))
  }

  /** What it takes for a transaction met on top of the block prefix `done` to get this verdict. */
  ghost predicate Explains(cfg: Config, w: World, done: seq<Included>, polls: nat, t: PoolTx, v: Verdict) {
    var executes := Executes(cfg, w, done, polls, t);
    var looksUp := GoesOn(cfg, w, done, polls, t) && IsBlob(t) && FitsBlobs(cfg, done, t.tx);
    var result := w.execute(Txs(done), t);
    match v
    case Reject(ExceedsGasLimit) => !FitsGas(cfg, done, t.tx)
    case Cancel => FitsGas(cfg, done, t.tx) && w.cancelled(polls)
    case Reject(OversizedData) =>
      FitsGas(cfg, done, t.tx) && !w.cancelled(polls) && !FitsSize(cfg, done, t.tx)
    case Reject(TooManyBlobs) =>
      GoesOn(cfg, w, done, polls, t) && IsBlob(t) && !FitsBlobs(cfg, done, t.tx)
    case Abort(BlobStore) => looksUp && w.blob(t) == StoreError
    case Reject(MissingSidecar) => looksUp && w.blob(t) == Missing
    case Reject(UnexpectedSidecar) => looksUp && w.blob(t).Found? && !HasSidecar(cfg, w, t)
    case SkipNonceTooLow => executes && result == NonceTooLow
    case Reject(NotExecutable) => executes && result == InvalidTx
    case Reject(ExceedsBlockGas) => executes && result == GasLimitMoreThanAvailable
    case Abort(Evm) => executes && result == Fatal
    case Crash => executes && result.Executed? && t.tx.MaxFeePerGas() < cfg.baseFee
    case Include(item) =>
      && executes && item.pooled == t
      && item.sidecar == (if IsBlob(t) then Some(w.blob(t).sidecar) else None)
      && result == Executed(item.gasUsed, item.regularGas, item.stateGas)
      && t.tx.EffectiveTip(cfg.baseFee) == Some(item.tip)
    case _ => false
  }

  lemma ExecutionExplained(cfg: Config, w: World, done: seq<Included>, polls: nat, t: PoolTx)
    requires Executes(cfg, w, done, polls, t)
    ensures var sidecar := if IsBlob(t) then Some(w.blob(t).sidecar) else None;
            Explains(cfg, w, done, polls, t, JudgeExecution(cfg, w, done, t, sidecar))
  {
    hide Txs, FitsGas, FitsSize, FitsBlobs, IsBlob;
  }

  /** The verdict on a transaction is the one with an explanation. */
  lemma JudgeExplained(cfg: Config, w: World, s: Selection, t: PoolTx)
    ensures Explains(cfg, w, s.included, s.polls, t, Judge(cfg, w, s, t))
  {
    ChecksExact(cfg, s.included, t.tx);
    assert IsBlob(t) <==> t.tx.BlobCount().Some?;
    hide Txs, OverGas, OverSize, OverBlobs, FitsGas, FitsSize, FitsBlobs, JudgeExecution, IsBlob;
    if Executes(cfg, w, s.included, s.polls, t) {
      ExecutionExplained(cfg, w, s.included, s.polls, t);
      hide Explains;
    }
  }

  lemma ExplanationsExclude(cfg: Config, w: World, done: seq<Included>, polls: nat, t: PoolTx,
                            v: Verdict, v': Verdict)
    requires Explains(cfg, w, done, polls, t, v) && Explains(cfg, w, done, polls, t, v')
    ensures v == v'
  {
    hide Txs, FitsGas, FitsSize, FitsBlobs, IsBlob;
  }

  /** Every explanation is the explanation of the verdict: what the loop decides about a transaction
      is determined, check by check, by the block prefix, the job and the outside. */
  lemma JudgeExact(cfg: Config, w: World, s: Selection, t: PoolTx, v: Verdict)
    ensures Judge(cfg, w, s, t) == v <==> Explains(cfg, w, s.included, s.polls, t, v)
  {
    hide Judge, Explains;
    JudgeExplained(cfg, w, s, t);
    if Explains(cfg, w, s.included, s.polls, t, v) {
      ExplanationsExclude(cfg, w, s.included, s.polls, t, v, Judge(cfg, w, s, t));
    }
  }

  // ---------------------------------------------------------------- every verdict of a run

  /** How often the events of a log asked whether the job is cancelled. */
  function Polls(log: seq<Event>): nat {
    if log == [] then 0
    else (if log[0].verdict == Reject(ExceedsGasLimit) then 0 else 1) + Polls(log[1..])
  }

  lemma PollsCons(event: Event, log: seq<Event>)
    ensures Polls([event] + log) == Polls([event]) + Polls(log)
  {
    assert ([event] + log)[1..] == log && [event][1..] == [];
  }

  lemma StepExplained(cfg: Config, w: World, s: Selection, pool: seq<PoolTx>)
    requires Step(cfg, w, s, pool).Go?
    ensures var Go(event, next, _) := Step(cfg, w, s, pool);
            && Explains(cfg, w, s.included, s.polls, event.pooled, event.verdict)
            && next.polls == s.polls + Polls([event])
  {
    var p := Advance(s.invalid, s.skipBlobs, pool);
    var now, t := s.(invalid := p.invalid), pool[p.index];
    JudgeExplained(cfg, w, now, t);
    hide Judge, Advance, Explains, IsBlob, Total;
    assert [Event(t, Judge(cfg, w, now, t))][1..] == [];
  }

  /** The event is explained by the block and the polls as they stand after the events before it. */
  ghost predicate ExplainedAfter(cfg: Config, w: World, s: Selection, before: seq<Event>, event: Event) {
    Explains(cfg, w, s.included + Includes(before), s.polls + Polls(before), event.pooled, event.verdict)
  }

  lemma ExplainedFirst(cfg: Config, w: World, s: Selection, event: Event)
    requires Explains(cfg, w, s.included, s.polls, event.pooled, event.verdict)
    ensures ExplainedAfter(cfg, w, s, [], event)
  {
    hide Explains;
    assert s.included + Includes([]) == s.included;
  }

  lemma ExplainedLater(cfg: Config, w: World, s: Selection, first: Event, next: Selection,
                       before: seq<Event>, event: Event)
    requires next.included == s.included + Includes([first]) && next.polls == s.polls + Polls([first])
    requires ExplainedAfter(cfg, w, next, before, event)
    ensures ExplainedAfter(cfg, w, s, [first] + before, event)
  {
    hide Explains, Includes, Polls;
    IncludesAppend([first], before);
    PollsCons(first, before);
    Regroup(s.included, Includes([first]), Includes(before));
  }

  /** Every verdict of a run is explained by the block and the polls as they stood when it was given;
      in particular the finished block replays: each of its transactions executed successfully on top
      of exactly the ones before it. */
  lemma {:induction false} VerdictsJustified(cfg: Config, w: World, s: Selection, pool: seq<PoolTx>,
                                             i: nat)
    requires i < |Greedy(cfg, w, s, pool).log|
    ensures var log := Greedy(cfg, w, s, pool).log; ExplainedAfter(cfg, w, s, log[..i], log[i])
    decreases |pool|
  {
    hide *;
    Unfold(cfg, w, s, pool);
    StepExplained(cfg, w, s, pool);
    var p := Step(cfg, w, s, pool);
    var _ := StepEffect(cfg, w, s, pool);
    var log, tail := Greedy(cfg, w, s, pool).log, Greedy(cfg, w, p.next, p.rest).log;
    if i == 0 {
      assert log[..0] == [];
      ExplainedFirst(cfg, w, s, p.event);
    } else {
      assert log[..i] == [p.event] + tail[..i - 1];
      VerdictsJustified(cfg, w, p.next, p.rest, i - 1);
      ExplainedLater(cfg, w, s, p.event, p.next, tail[..i - 1], log[i]);
    }
  }

  // ---------------------------------------------------------------- early stops

  /** The verdict that ends a run in this way. */
  function LastVerdict(end: End): Verdict
    requires end != Finished
  {
    match end
    case Cancelled => Cancel
    case Failed(e) => Abort(e)
    case Panicked => Crash
  }

  ghost predicate StoppedBy(cfg: Config, w: World, final: Selection, end: End, t: PoolTx)
    requires end != Finished
  {
    Explains(cfg, w, final.included, final.polls, t, LastVerdict(end))
  }

  lemma StopExplained(cfg: Config, w: World, s: Selection, pool: seq<PoolTx>) returns (k: nat)
    requires Step(cfg, w, s, pool).Stop? && Step(cfg, w, s, pool).end != Finished
    ensures var Stop(end, final) := Step(cfg, w, s, pool);
            k < |pool| && StoppedBy(cfg, w, final, end, pool[k]) && final.polls == s.polls
  {
    var p := Advance(s.invalid, s.skipBlobs, pool);
    k := p.index;
    JudgeExplained(cfg, w, s.(invalid := p.invalid), pool[k]);
    hide Judge, Advance, Explains;
  }

  /** A run stops early only for cause, and the cause is a transaction of the pool met on top of the
      block as the run left it: cancelled when asked, a failing blob store, a fatal execution, a
      missing tip. An invalid transaction is none of these. */
  lemma {:induction false} StopsForCause(cfg: Config, w: World, s: Selection, pool: seq<PoolTx>)
    returns (k: nat)
    requires Greedy(cfg, w, s, pool).end != Finished
    ensures var r := Greedy(cfg, w, s, pool);
            && k < |pool| && StoppedBy(cfg, w, r.final, r.end, pool[k])
            && r.final.polls == s.polls + Polls(r.log)
    decreases |pool|
  {
    assert Polls([]) == 0;
    hide *;
    Unfold(cfg, w, s, pool);
    var p := Step(cfg, w, s, pool);
    if p.Stop? {
      k := StopExplained(cfg, w, s, pool);
    } else {
      StepExplained(cfg, w, s, pool);
      PollsCons(p.event, Greedy(cfg, w, p.next, p.rest).log);
      var i := StepEffect(cfg, w, s, pool);
      k := StopsForCause(cfg, w, p.next, p.rest);
      assert p.rest[k] == pool[i + 1..][k] == pool[i + 1 + k];
      k := i + 1 + k;
    }
  }

  // ---------------------------------------------------------------- marked senders

  ghost predicate Rejected(log: seq<Event>, a: Bytes20) {
    exists j :: 0 <= j < |log| && log[j].pooled.sender == a && log[j].verdict.Reject?
  }

  ghost predicate SendsBlobs(pool: seq<PoolTx>, a: Bytes20) {
    exists i :: 0 <= i < |pool| && pool[i].sender == a && IsBlob(pool[i])
  }

  /** The iterator marks only senders of blob transactions, and only once blobs are skipped. */
  lemma {:induction false} AdvanceMarks(invalid: set<Bytes20>, skipBlobs: bool, pool: seq<PoolTx>,
                                        a: Bytes20)
    requires a in Advance(invalid, skipBlobs, pool).invalid
    ensures a in invalid || (skipBlobs && SendsBlobs(pool, a))
    decreases |pool|
  {
    if pool != [] {
      var rest := pool[1..];
      if pool[0].sender in invalid {
        AdvanceMarks(invalid, skipBlobs, rest, a);
      } else if skipBlobs && IsBlob(pool[0]) {
        AdvanceMarks(invalid + {pool[0].sender}, skipBlobs, rest, a);
      }
      SendsBlobsLater(pool, 1, a);
    }
  }

  lemma SendsBlobsLater(pool: seq<PoolTx>, k: nat, a: Bytes20)
    requires k <= |pool|
    ensures SendsBlobs(pool[k..], a) ==> SendsBlobs(pool, a)
  {
    hide IsBlob;
    if i :| 0 <= i < |pool[k..]| && pool[k..][i].sender == a && IsBlob(pool[k..][i]) {
      assert pool[k + i] == pool[k..][i];
    }
  }

  /** What one step marks, and when it begins to skip blobs. */
  lemma StepMarks(cfg: Config, w: World, s: Selection, pool: seq<PoolTx>, a: Bytes20)
    ensures var p := Step(cfg, w, s, pool);
            var next := if p.Go? then p.next else p.final;
            && (a in next.invalid ==>
                  || a in s.invalid || (s.skipBlobs && SendsBlobs(pool, a))
                  || (p.Go? && p.event.pooled.sender == a && p.event.verdict.Reject?))
            && (s.skipBlobs ==> next.skipBlobs)
            && (next.skipBlobs && !s.skipBlobs ==> Total(Blobs, next.included) == MaxBlobs(cfg))
  {
    if a in Advance(s.invalid, s.skipBlobs, pool).invalid {
      AdvanceMarks(s.invalid, s.skipBlobs, pool, a);
    }
    hide Judge, Advance, SendsBlobs, Total, MaxBlobs, IsBlob;
  }

  lemma RejectedLater(event: Event, log: seq<Event>, a: Bytes20)
    ensures Rejected([event] + log, a)
       <==> (event.pooled.sender == a && event.verdict.Reject?) || Rejected(log, a)
  {
    var all := [event] + log;
    if Rejected(log, a) {
      var j :| 0 <= j < |log| && log[j].pooled.sender == a && log[j].verdict.Reject?;
      assert all[j + 1] == log[j];
    }
    if event.pooled.sender == a && event.verdict.Reject? {
      assert all[0] == event;
    }
  }

  /** A sender ends up marked only for cause: it was marked before, one of its transactions was
      rejected, or blobs are skipped and it sends some. */
  lemma {:induction false} MarkedForCause(cfg: Config, w: World, s: Selection, pool: seq<PoolTx>,
                                          a: Bytes20)
    requires a in Greedy(cfg, w, s, pool).final.invalid
    ensures var r := Greedy(cfg, w, s, pool);
            a in s.invalid || Rejected(r.log, a) || (r.final.skipBlobs && SendsBlobs(pool, a))
    decreases |pool|
  {
    hide *;
    Unfold(cfg, w, s, pool);
    StepMarks(cfg, w, s, pool, a);
    var p := Step(cfg, w, s, pool);
    if p.Go? {
      var k := StepEffect(cfg, w, s, pool);
      SkippingStays(cfg, w, p.next, p.rest);
      MarkedForCause(cfg, w, p.next, p.rest, a);
      RejectedLater(p.event, Greedy(cfg, w, p.next, p.rest).log, a);
      SendsBlobsLater(pool, k + 1, a);
    }
  }

  lemma {:induction false} SkippingStays(cfg: Config, w: World, s: Selection, pool: seq<PoolTx>)
    ensures s.skipBlobs ==> Greedy(cfg, w, s, pool).final.skipBlobs
    decreases |pool|
  {
    hide *;
    Unfold(cfg, w, s, pool);
    StepMarks(cfg, w, s, pool, seq(20, _ => 0));
    var p := Step(cfg, w, s, pool);
    if p.Go? {
      SkippingStays(cfg, w, p.next, p.rest);
    }
  }

  /** The converse for rejections: a rejected sender stays marked. */
  lemma {:induction false} RejectedIsMarked(cfg: Config, w: World, s: Selection, pool: seq<PoolTx>,
                                            a: Bytes20)
    requires Rejected(Greedy(cfg, w, s, pool).log, a)
    ensures a in Greedy(cfg, w, s, pool).final.invalid
    decreases |pool|
  {
    assert !Rejected([], a);
    hide *;
    Unfold(cfg, w, s, pool);
    var p := Step(cfg, w, s, pool);
    if p.Go? {
      var _ := StepEffect(cfg, w, s, pool);
      var tail := Greedy(cfg, w, p.next, p.rest);
      RejectedLater(p.event, tail.log, a);
      if Rejected(tail.log, a) {
        RejectedIsMarked(cfg, w, p.next, p.rest, a);
      } else {
        InvalidGrows(cfg, w, p.next, p.rest);
      }
    }
  }

  lemma StepKeepsBlobs(cfg: Config, w: World, s: Selection, pool: seq<PoolTx>)
    requires s.skipBlobs
    ensures var p := Step(cfg, w, s, pool);
            Total(Blobs, if p.Go? then p.next.included else p.final.included)
            == Total(Blobs, s.included)
  {
    hide *;
    StopKeepsIncluded(cfg, w, s, pool);
    var p := Step(cfg, w, s, pool);
    if p.Go? {
      var _ := StepEffect(cfg, w, s, pool);
      BlobsAfter(s.included, p.event);
    }
  }

  lemma BlobsAfter(xs: seq<Included>, event: Event)
    requires event.verdict.Include? ==> !IsBlob(event.verdict.item.pooled)
    ensures Total(Blobs, xs + Includes([event])) == Total(Blobs, xs)
  {
    assert [event][1..] == [];
    hide Total;
    if event.verdict.Include? {
      TotalAppend(Blobs, xs, event.verdict.item);
    } else {
      assert xs + [] == xs;
    }
  }

  lemma {:induction false} SkippingKeepsBlobs(cfg: Config, w: World, s: Selection, pool: seq<PoolTx>)
    requires s.skipBlobs
    ensures Total(Blobs, Greedy(cfg, w, s, pool).final.included) == Total(Blobs, s.included)
    decreases |pool|
  {
    hide *;
    Unfold(cfg, w, s, pool);
    StepKeepsBlobs(cfg, w, s, pool);
    StepMarks(cfg, w, s, pool, seq(20, _ => 0));
    var p := Step(cfg, w, s, pool);
    if p.Go? {
      SkippingKeepsBlobs(cfg, w, p.next, p.rest);
    }
  }

  /** Blobs are skipped only by a block that holds as many as the limit. */
  lemma {:induction false} SkippingMeansFull(cfg: Config, w: World, s: Selection, pool: seq<PoolTx>)
    requires Greedy(cfg, w, s, pool).final.skipBlobs && !s.skipBlobs
    ensures Total(Blobs, Greedy(cfg, w, s, pool).final.included) == MaxBlobs(cfg)
    decreases |pool|
  {
    hide *;
    Unfold(cfg, w, s, pool);
    StepMarks(cfg, w, s, pool, seq(20, _ => 0));
    var p := Step(cfg, w, s, pool);
    if p.Go? {
      if p.next.skipBlobs {
        SkippingKeepsBlobs(cfg, w, p.next, p.rest);
      } else {
        SkippingMeansFull(cfg, w, p.next, p.rest);
      }
    }
  }

  lemma {:induction false} YieldedOrMarked(cfg: Config, w: World, s: Selection, pool: seq<PoolTx>, i: nat)
    requires Greedy(cfg, w, s, pool).end == Finished && i < |pool|
    ensures var r := Greedy(cfg, w, s, pool);
            pool[i].sender in r.final.invalid || Yielded(r.log, pool[i])
    decreases |pool|
  {
    hide *;
    Unfold(cfg, w, s, pool);
    var p := Step(cfg, w, s, pool);
    if p.Stop? {
      StopKeepsIncluded(cfg, w, s, pool);
    } else {
      var k := StepEffect(cfg, w, s, pool);
      InvalidGrows(cfg, w, p.next, p.rest);
      var tail := Greedy(cfg, w, p.next, p.rest);
      YieldedLater(p.event, tail.log, pool[i]);
      if i > k {
        assert pool[i] == p.rest[i - k - 1];
        YieldedOrMarked(cfg, w, p.next, p.rest, i - k - 1);
      }
    }
  }

  ghost predicate Yielded(log: seq<Event>, t: PoolTx) {
    exists j :: 0 <= j < |log| && log[j].pooled == t
  }

  lemma YieldedLater(event: Event, log: seq<Event>, t: PoolTx)
    ensures event.pooled == t || Yielded(log, t) ==> Yielded([event] + log, t)
  {
    var all := [event] + log;
    assert all[0] == event;
    if Yielded(log, t) {
      var j :| 0 <= j < |log| && log[j].pooled == t;
      assert all[j + 1] == log[j];
    }
  }

  /** When a whole build's run finishes, every transaction of the pool was yielded, and so judged,
      unless a transaction of the same sender was rejected, or the block is full of blobs and the
      sender sends blobs. */
  lemma NobodyForgotten(cfg: Config, w: World, pool: seq<PoolTx>, i: nat)
    requires Greedy(cfg, w, NOTHING, pool).end == Finished && i < |pool|
    ensures var r := Greedy(cfg, w, NOTHING, pool);
            || Yielded(r.log, pool[i]) || Rejected(r.log, pool[i].sender)
            || (Total(Blobs, r.final.included) == MaxBlobs(cfg) && SendsBlobs(pool, pool[i].sender))
  {
    assert NOTHING.invalid == {} && !NOTHING.skipBlobs;
    hide *;
    var r := Greedy(cfg, w, NOTHING, pool);
    YieldedOrMarked(cfg, w, NOTHING, pool, i);
    if pool[i].sender in r.final.invalid {
      MarkedForCause(cfg, w, NOTHING, pool, pool[i].sender);
      if r.final.skipBlobs {
        SkippingMeansFull(cfg, w, NOTHING, pool);
      }
    }
  }

  // ---------------------------------------------------------------- rejections stand

  /** The budget a rejection names has no room for the transaction on top of `done`. */
  predicate Exceeds(cfg: Config, done: seq<Included>, tx: Transaction, reason: Reason) {
    match reason
    case ExceedsGasLimit => !FitsGas(cfg, done, tx)
    case OversizedData => !FitsSize(cfg, done, tx)
    case TooManyBlobs => !FitsBlobs(cfg, done, tx)
    case _ => true
  }

  lemma ExceedsLater(cfg: Config, done: seq<Included>, more: seq<Included>, tx: Transaction,
                     reason: Reason)
    requires Exceeds(cfg, done, tx, reason)
    ensures Exceeds(cfg, done + more, tx, reason)
  {
    forall m: Measure
      ensures Total(m, done + more) >= Total(m, done)
    {
      TotalGrows(m, done, more);
    }
    hide Total;
  }

  lemma ExplainedRejection(cfg: Config, w: World, done: seq<Included>, polls: nat, t: PoolTx,
                           reason: Reason)
    requires Explains(cfg, w, done, polls, t, Reject(reason))
    ensures Exceeds(cfg, done, t.tx, reason)
  {
    hide FitsGas, FitsSize, FitsBlobs, Txs;
  }

  lemma {:induction false} BlockGrows(cfg: Config, w: World, s: Selection, pool: seq<PoolTx>, i: nat)
    requires i <= |Greedy(cfg, w, s, pool).log|
    ensures var r := Greedy(cfg, w, s, pool);
            r.final.included == s.included + Includes(r.log[..i]) + Includes(r.log[i..])
  {
    hide *;
    LogAccountsForBlock(cfg, w, s, pool);
    var log := Greedy(cfg, w, s, pool).log;
    assert log == log[..i] + log[i..];
    IncludesAppend(log[..i], log[i..]);
    Regroup(s.included, Includes(log[..i]), Includes(log[i..]));
  }

  lemma RejectionExplained(cfg: Config, w: World, s: Selection, before: seq<Event>, event: Event)
    requires ExplainedAfter(cfg, w, s, before, event)
    ensures Explains(cfg, w, s.included + Includes(before), s.polls + Polls(before), event.pooled,
                     event.verdict)
  {
    hide Explains;
  }

  /** The selection is maximal: a transaction turned away by the gas, size or blob budget has no room
      on top of the finished block either. */
  lemma RejectionsStand(cfg: Config, w: World, s: Selection, pool: seq<PoolTx>, i: nat)
    requires i < |Greedy(cfg, w, s, pool).log|
    requires Greedy(cfg, w, s, pool).log[i].verdict.Reject?
    ensures var r := Greedy(cfg, w, s, pool);
            Exceeds(cfg, r.final.included, r.log[i].pooled.tx, r.log[i].verdict.reason)
  {
    hide *;
    VerdictsJustified(cfg, w, s, pool, i);
    BlockGrows(cfg, w, s, pool, i);
    var log := Greedy(cfg, w, s, pool).log;
    var done, t, reason := s.included + Includes(log[..i]), log[i].pooled, log[i].verdict.reason;
    assert log[i].verdict == Reject(reason);
    RejectionExplained(cfg, w, s, log[..i], log[i]);
    ExplainedRejection(cfg, w, done, s.polls + Polls(log[..i]), t, reason);
    ExceedsLater(cfg, done, Includes(log[i..]), t.tx, reason);
  }
}
