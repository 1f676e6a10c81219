/** What every run of the builder's selection keeps, and what its result is worth. */
module BuilderLaws {
  import opened Wrappers
  import opened Bytes
  import opened Envelopes
  import opened Builder

  // ---------------------------------------------------------------- totals

  lemma TotalAppend(m: Measure, xs: seq<Included>, x: Included)
    ensures Total(m, xs + [x]) == Total(m, xs) + Of(m, x)
  {
    assert (xs + [x])[..|xs|] == xs;
  }

  lemma {:induction false} TotalGrows(m: Measure, xs: seq<Included>, ys: seq<Included>)
    ensures Total(m, xs + ys) >= Total(m, xs)
  {
    if ys == [] {
      assert xs + ys == xs;
    } else {
      var init, last := ys[..|ys| - 1], ys[|ys| - 1];
      assert xs + ys == xs + init + [last];
      TotalAppend(m, xs + init, last);
      TotalGrows(m, xs, init);
    }
  }

  // ---------------------------------------------------------------- budgets

  /** An included transaction covered the base fee, has the tip recorded for it and exactly the
      sidecar it should have. */
  ghost predicate Sound(cfg: Config, x: Included) {
    && x.pooled.tx.MaxFeePerGas() >= cfg.baseFee
    && x.pooled.tx.EffectiveTip(cfg.baseFee) == Some(x.tip)
    && (x.sidecar.Some? <==> IsBlob(x.pooled))
    && (x.sidecar.Some? ==> RightSidecar(cfg, x.sidecar.value))
  }

  ghost predicate WithinBudgets(cfg: Config, xs: seq<Included>) {
    && (!cfg.amsterdam ==> Total(GasUsed, xs) <= cfg.blockGasLimit)
    && (cfg.amsterdam ==>
          Total(RegularGas, xs) <= cfg.blockGasLimit && Total(StateGas, xs) <= cfg.blockGasLimit)
    && Total(Blobs, xs) <= MaxBlobs(cfg)
    && (cfg.osaka && xs != [] ==>
          Total(Length, xs) + WithdrawalsLength(cfg) + HEADER_ALLOWANCE <= MAX_RLP_BLOCK_SIZE)
  }

  ghost predicate Kept(cfg: Config, xs: seq<Included>) {
    && WithinBudgets(cfg, xs)
    && forall i :: 0 <= i < |xs| ==> Sound(cfg, xs[i])
  }

  /** Exceeding no budget before execution, an honest execution exceeds none after it. */
  lemma IncludeKeeps(cfg: Config, w: World, s: Selection, t: PoolTx)
    requires Contract(cfg, w) && Kept(cfg, s.included)
    requires Judge(cfg, w, s, t).Include?
    ensures Judge(cfg, w, s, t).item.pooled == t
    ensures Kept(cfg, s.included + [Judge(cfg, w, s, t).item])
  {
    var item := Judge(cfg, w, s, t).item;
    assert Honest(cfg, t.tx, w.execute(Txs(s.included), t));
    forall m: Measure
      ensures Total(m, s.included + [item]) == Total(m, s.included) + Of(m, item)
    {
      TotalAppend(m, s.included, item);
    }
    hide Total, Txs;
    PriceSplits(t.tx, cfg.baseFee);
  }

  lemma NeverCrashes(cfg: Config, w: World, s: Selection, t: PoolTx)
    requires Contract(cfg, w)
    ensures !Judge(cfg, w, s, t).Crash?
  {
    var r := w.execute(Txs(s.included), t);
    if r.Executed? {
      assert Honest(cfg, t.tx, r);
    }
    hide Total, Txs, MaxBlobs;
  }

  lemma ReactKeeps(cfg: Config, w: World, s: Selection, t: PoolTx, rest: seq<PoolTx>)
    requires Contract(cfg, w) && Kept(cfg, s.included)
    ensures match React(cfg, w, s, t, rest)
            case Stop(end, final) => end != Finished && end != Panicked && final == s
            case Go(_, next, _) => Kept(cfg, next.included)
  {
    NeverCrashes(cfg, w, s, t);
    if Judge(cfg, w, s, t).Include? {
      IncludeKeeps(cfg, w, s, t);
    }
    hide Judge, Kept, Contract, IsBlob, Total, MaxBlobs;
  }

  lemma StepKeeps(cfg: Config, w: World, s: Selection, pool: seq<PoolTx>)
    requires Contract(cfg, w) && Kept(cfg, s.included)
    ensures match Step(cfg, w, s, pool)
            case Stop(end, final) => end != Panicked && Kept(cfg, final.included)
            case Go(_, next, _) => Kept(cfg, next.included)
  {
    hide React, Kept, Advance, Contract;
    var p := Advance(s.invalid, s.skipBlobs, pool);
    if p.Yield? {
      ReactKeeps(cfg, w, s.(invalid := p.invalid), pool[p.index], pool[p.index + 1..]);
    }
  }

  /** Every budget is an invariant of every run over every pool. */
  lemma {:induction false} GreedyKeeps(cfg: Config, w: World, s: Selection, pool: seq<PoolTx>)
    requires Contract(cfg, w) && Kept(cfg, s.included)
    ensures Kept(cfg, Greedy(cfg, w, s, pool).final.included)
    ensures Greedy(cfg, w, s, pool).end != Panicked
    decreases |pool|
  {
    StepKeeps(cfg, w, s, pool);
    hide Step, Greedy, Kept, Contract;
    Unfold(cfg, w, s, pool);
    var p := Step(cfg, w, s, pool);
    if p.Go? {
      GreedyKeeps(cfg, w, p.next, p.rest);
    }
  }

  /** The budgets, for a whole build. */
  lemma BuildStaysWithinBudgets(cfg: Config, w: World, pool: seq<PoolTx>)
    requires Contract(cfg, w)
    ensures Kept(cfg, Greedy(cfg, w, NOTHING, pool).final.included)
    ensures Greedy(cfg, w, NOTHING, pool).end != Panicked
  {
    GreedyKeeps(cfg, w, NOTHING, pool);
  }

  // ---------------------------------------------------------------- fees

  /** What the senders of the included transactions pay for gas. */
  function Paid(cfg: Config, xs: seq<Included>): nat {
    if xs == [] then 0
    else
      var x := xs[|xs| - 1];
      Paid(cfg, xs[..|xs| - 1]) + x.pooled.tx.EffectivePrice(cfg.baseFee) * x.gasUsed
  }

  lemma Distribute(a: int, b: int, c: int)
    ensures (a + b) * c == a * c + b * c
  {
  }

  lemma Scale(a: int, b: int, c: int)
    requires a <= b && 0 <= c
    ensures a * c <= b * c
  {
  }

  lemma PriceOfOne(cfg: Config, x: Included)
    requires Sound(cfg, x)
    ensures x.pooled.tx.EffectivePrice(cfg.baseFee) * x.gasUsed
         == cfg.baseFee * x.gasUsed + x.tip * x.gasUsed
    ensures x.tip * x.gasUsed <= (TWO_128 - 1) * x.gasUsed
  {
    PriceSplits(x.pooled.tx, cfg.baseFee);
    Distribute(cfg.baseFee, x.tip, x.gasUsed);
    Scale(x.tip, TWO_128 - 1, x.gasUsed);
  }

  /** Fee conservation: what senders pay is burned base fee plus the fees the builder reports. */
  lemma {:induction false} FeesConserved(cfg: Config, xs: seq<Included>)
    requires forall i :: 0 <= i < |xs| ==> Sound(cfg, xs[i])
    ensures Paid(cfg, xs) == cfg.baseFee * Total(GasUsed, xs) + Total(Fees, xs)
  {
    if xs != [] {
      var init, x := xs[..|xs| - 1], xs[|xs| - 1];
      FeesConserved(cfg, init);
      PriceOfOne(cfg, x);
      assert Paid(cfg, xs) == Paid(cfg, init) + x.pooled.tx.EffectivePrice(cfg.baseFee) * x.gasUsed;
      assert Total(GasUsed, xs) == Total(GasUsed, init) + x.gasUsed;
      assert Total(Fees, xs) == Total(Fees, init) + x.tip * x.gasUsed;
      hide *;
      AddPayment(cfg.baseFee, Total(GasUsed, init), x.gasUsed, Total(Fees, init), x.tip * x.gasUsed);
    }
  }

  lemma AddPayment(base: nat, a: nat, b: nat, f: nat, g: nat)
    ensures (base * a + f) + (base * b + g) == base * (a + b) + (f + g)
  {
  }

  lemma {:induction false} FeesPerGas(cfg: Config, xs: seq<Included>)
    requires forall i :: 0 <= i < |xs| ==> Sound(cfg, xs[i])
    ensures Total(Fees, xs) <= (TWO_128 - 1) * Total(GasUsed, xs)
  {
    if xs != [] {
      var init, x := xs[..|xs| - 1], xs[|xs| - 1];
      FeesPerGas(cfg, init);
      assert Total(GasUsed, xs) == Total(GasUsed, init) + x.gasUsed;
      assert Total(Fees, xs) == Total(Fees, init) + x.tip * x.gasUsed;
      hide *;
      PriceOfOne(cfg, x);
      Distribute(Total(GasUsed, init), x.gasUsed, TWO_128 - 1);
    }
  }

  lemma {:induction false} GasPerTransaction(xs: seq<Included>)
    ensures Total(GasUsed, xs) <= |xs| * (TWO_64 - 1)
  {
    if xs != [] {
      GasPerTransaction(xs[..|xs| - 1]);
    }
  }

  /** The fee accumulator never wraps: fewer than 2^64 transactions pay less than 2^256 in any fork.
      Outside Amsterdam the gas budget keeps the fees below 2^192, however many transactions pay
      them. */
  lemma FeesNeverWrap(cfg: Config, xs: seq<Included>)
    requires Kept(cfg, xs)
    ensures !cfg.amsterdam ==> Total(Fees, xs) < TWO_128 * TWO_64
    ensures !cfg.amsterdam || |xs| < TWO_64 ==> TotalFees(xs) == Total(Fees, xs)
  {
    hide Total, TotalFees, Sound, MaxBlobs;
    FeesPerGas(cfg, xs);
    GasPerTransaction(xs);
    FeeBounds(Total(Fees, xs), Total(GasUsed, xs), |xs|);
    if Total(Fees, xs) < TWO_256 {
      FeesFit(xs);
    }
  }

  lemma FeesFit(xs: seq<Included>)
    requires Total(Fees, xs) < TWO_256
    ensures TotalFees(xs) == Total(Fees, xs)
  {
    hide Total;
  }

  lemma FeeBounds(fees: nat, gas: nat, count: nat)
    requires fees <= (TWO_128 - 1) * gas
    ensures gas < TWO_64 ==> fees < TWO_128 * TWO_64
    ensures gas <= count * (TWO_64 - 1) && count < TWO_64 ==> fees < TWO_256
  {
    if gas < TWO_64 {
      Scale(gas, TWO_64 - 1, TWO_128 - 1);
    } else if gas <= count * (TWO_64 - 1) && count < TWO_64 {
      Scale(count, TWO_64 - 1, TWO_64 - 1);
      Scale(gas, (TWO_64 - 1) * (TWO_64 - 1), TWO_128 - 1);
    }
  }

  // ---------------------------------------------------------------- what the log says

  /** The transactions a log says were included. */
  function Includes(log: seq<Event>): seq<Included> {
    if log == [] then []
    else if log[0].verdict.Include? then [log[0].verdict.item] + Includes(log[1..])
    else Includes(log[1..])
  }

  predicate Final(v: Verdict) {
    v.Include? || v.Reject? || v.SkipNonceTooLow?
  }

  /** One step, seen from outside: which transaction the pool yielded, that the ones it passed over
      have marked senders, and what the verdict changed. */
  lemma StepEffect(cfg: Config, w: World, s: Selection, pool: seq<PoolTx>) returns (k: nat)
    requires Step(cfg, w, s, pool).Go?
    ensures var Go(event, next, rest) := Step(cfg, w, s, pool);
            && k < |pool| && event.pooled == pool[k] && rest == pool[k + 1..]
            && Final(event.verdict)
            && event.pooled.sender !in s.invalid
            && s.invalid <= next.invalid
            && (event.verdict.Reject? ==> event.pooled.sender in next.invalid)
            && (s.skipBlobs ==> next.skipBlobs && !IsBlob(event.pooled))
            && (forall i :: 0 <= i < k ==> pool[i].sender in next.invalid)
            && (event.verdict.Include? ==> event.verdict.item.pooled == event.pooled)
            && next.included == s.included + Includes([event])
  {
    var p := Advance(s.invalid, s.skipBlobs, pool);
    k := p.index;
    var now := s.(invalid := p.invalid);
    JudgedItem(cfg, w, now, pool[k]);
    hide Judge, Advance, IsBlob;
    var v := Judge(cfg, w, now, pool[k]);
    assert [Event(pool[k], v)][1..] == [] && s.included + [] == s.included;
  }

  lemma JudgedItem(cfg: Config, w: World, s: Selection, t: PoolTx)
    ensures Judge(cfg, w, s, t).Include? ==> Judge(cfg, w, s, t).item.pooled == t
  {
    hide OverGas, OverSize, OverBlobs, Txs;
  }

  /** A run is its first step followed by the run from there. */
  lemma Unfold(cfg: Config, w: World, s: Selection, pool: seq<PoolTx>)
    ensures match Step(cfg, w, s, pool)
            case Stop(end, final) => Greedy(cfg, w, s, pool) == Run(end, final, [])
            case Go(event, next, rest) =>
              var r, tail := Greedy(cfg, w, s, pool), Greedy(cfg, w, next, rest);
              && r == Run(tail.end, tail.final, [event] + tail.log)
              && |r.log| == 1 + |tail.log| && r.log[0] == event
              && forall i :: 0 < i < |r.log| ==> r.log[i] == tail.log[i - 1]
  {
    hide Step;
  }

  lemma {:induction false} IncludesAppend(a: seq<Event>, b: seq<Event>)
    ensures Includes(a + b) == Includes(a) + Includes(b)
  {
    if a == [] {
      assert a + b == b;
    } else {
      assert (a + b)[1..] == a[1..] + b;
      IncludesAppend(a[1..], b);
    }
  }

  /** Every yielded transaction has exactly one disposition, and the block holds exactly the
      included ones, in the order they were yielded. */
  lemma {:induction false} LogAccountsForBlock(cfg: Config, w: World, s: Selection, pool: seq<PoolTx>)
    ensures var r := Greedy(cfg, w, s, pool);
            && r.final.included == s.included + Includes(r.log)
            && (forall i :: 0 <= i < |r.log| ==> Final(r.log[i].verdict))
    decreases |pool|
  {
    assert Includes([]) == [] && s.included + [] == s.included;
    hide *;
    Unfold(cfg, w, s, pool);
    var p := Step(cfg, w, s, pool);
    if p.Go? {
      var _ := StepEffect(cfg, w, s, pool);
      LogAccountsForBlock(cfg, w, p.next, p.rest);
      var tail := Greedy(cfg, w, p.next, p.rest).log;
      IncludesAppend([p.event], tail);
      Regroup(s.included, Includes([p.event]), Includes(tail));
    } else {
      StopKeepsIncluded(cfg, w, s, pool);
    }
  }

  lemma StopKeepsIncluded(cfg: Config, w: World, s: Selection, pool: seq<PoolTx>)
    ensures var p := Step(cfg, w, s, pool);
            p.Stop? ==> p.final.included == s.included && s.invalid <= p.final.invalid
    ensures var p := Step(cfg, w, s, pool);
            p.Stop? && p.end == Finished ==>
              forall i :: 0 <= i < |pool| ==> pool[i].sender in p.final.invalid
  {
    hide Judge, Advance;
  }

  predicate IsSubsequence<T(==)>(xs: seq<T>, ys: seq<T>) {
    if xs == [] then true
    else if ys == [] then false
    else if xs[0] == ys[0] then IsSubsequence(xs[1..], ys[1..]) || IsSubsequence(xs, ys[1..])
    else IsSubsequence(xs, ys[1..])
  }

  lemma {:induction false} SubsequenceLater<T>(xs: seq<T>, ys: seq<T>, k: nat)
    requires k <= |ys| && IsSubsequence(xs, ys[k..])
    ensures IsSubsequence(xs, ys)
  {
    if k > 0 {
      assert ys[1..][k - 1..] == ys[k..];
      SubsequenceLater(xs, ys[1..], k - 1);
    } else {
      assert ys[0..] == ys;
    }
  }

  lemma SubsequenceCons<T>(x: T, xs: seq<T>, ys: seq<T>, k: nat)
    requires k < |ys| && ys[k] == x && IsSubsequence(xs, ys[k + 1..])
    ensures IsSubsequence([x] + xs, ys)
  {
    assert ys[k..][1..] == ys[k + 1..];
    assert ([x] + xs)[1..] == xs;
    SubsequenceLater([x] + xs, ys, k);
  }

  /** The block's transactions stand in pool order. */
  lemma {:induction false} BlockFollowsPool(cfg: Config, w: World, s: Selection, pool: seq<PoolTx>)
    ensures IsSubsequence(Txs(Includes(Greedy(cfg, w, s, pool).log)), pool)
    decreases |pool|
  {
    assert Txs(Includes([])) == [] && IsSubsequence<PoolTx>([], pool);
    hide *;
    Unfold(cfg, w, s, pool);
    var p := Step(cfg, w, s, pool);
    if p.Go? {
      var k := StepEffect(cfg, w, s, pool);
      BlockFollowsPool(cfg, w, p.next, p.rest);
      var tail := Greedy(cfg, w, p.next, p.rest).log;
      TxsOfLog(p.event, tail);
      if p.event.verdict.Include? {
        SubsequenceCons(p.event.pooled, Txs(Includes(tail)), pool, k);
      } else {
        SubsequenceLater(Txs(Includes(tail)), pool, k + 1);
      }
    }
  }

  lemma {:induction false} SubsequenceIsShorter<T>(xs: seq<T>, ys: seq<T>)
    requires IsSubsequence(xs, ys)
    ensures |xs| <= |ys|
  {
    if xs != [] {
      if xs[0] == ys[0] && IsSubsequence(xs[1..], ys[1..]) {
        SubsequenceIsShorter(xs[1..], ys[1..]);
      } else {
        SubsequenceIsShorter(xs, ys[1..]);
      }
    }
  }

  lemma TxsOfLog(event: Event, tail: seq<Event>)
    ensures Txs(Includes([event] + tail))
         == if event.verdict.Include? then [event.verdict.item.pooled] + Txs(Includes(tail))
            else Txs(Includes(tail))
  {
    assert ([event] + tail)[1..] == tail;
  }

  lemma {:induction false} InvalidGrows(cfg: Config, w: World, s: Selection, pool: seq<PoolTx>)
    ensures s.invalid <= Greedy(cfg, w, s, pool).final.invalid
    decreases |pool|
  {
    hide Step, Greedy;
    Unfold(cfg, w, s, pool);
    var p := Step(cfg, w, s, pool);
    if p.Go? {
      var _ := StepEffect(cfg, w, s, pool);
      InvalidGrows(cfg, w, p.next, p.rest);
    } else {
      StopKeepsIncluded(cfg, w, s, pool);
    }
  }

  lemma {:induction false} YieldsAvoidInvalid(cfg: Config, w: World, s: Selection, pool: seq<PoolTx>,
                                              j: nat)
    requires j < |Greedy(cfg, w, s, pool).log|
    ensures var t := Greedy(cfg, w, s, pool).log[j].pooled;
            t.sender !in s.invalid && (s.skipBlobs ==> !IsBlob(t))
    decreases |pool|
  {
    hide *;
    Unfold(cfg, w, s, pool);
    var p := Step(cfg, w, s, pool);
    var _ := StepEffect(cfg, w, s, pool);
    if j > 0 {
      YieldsAvoidInvalid(cfg, w, p.next, p.rest, j - 1);
    }
  }

  /** Per-sender consistency: once a transaction is rejected for any reason but a low nonce, its
      sender is never yielded again, so nothing that depends on it can be included. */
  lemma {:induction false} RejectionEndsSender(cfg: Config, w: World, s: Selection, pool: seq<PoolTx>,
                                               i: nat, j: nat)
    requires i < j < |Greedy(cfg, w, s, pool).log|
    requires Greedy(cfg, w, s, pool).log[i].verdict.Reject?
    ensures var log := Greedy(cfg, w, s, pool).log; log[i].pooled.sender != log[j].pooled.sender
    decreases |pool|
  {
    hide *;
    Unfold(cfg, w, s, pool);
    var p := Step(cfg, w, s, pool);
    var _ := StepEffect(cfg, w, s, pool);
    if i == 0 {
      YieldsAvoidInvalid(cfg, w, p.next, p.rest, j - 1);
    } else {
      RejectionEndsSender(cfg, w, p.next, p.rest, i - 1, j - 1);
    }
  }

  lemma StepFillsBlobs(cfg: Config, w: World, s: Selection, pool: seq<PoolTx>)
    requires Step(cfg, w, s, pool).Go?
    requires Step(cfg, w, s, pool).event.verdict.Include?
    requires IsBlob(Step(cfg, w, s, pool).event.pooled)
    requires Total(Blobs, Step(cfg, w, s, pool).next.included) == MaxBlobs(cfg)
    ensures Step(cfg, w, s, pool).next.skipBlobs
  {
    hide Judge, Advance, Total, MaxBlobs, IsBlob;
  }

  /** Once an included blob transaction fills the blob limit, the pool yields no blob transaction
      any more. */
  lemma {:induction false} FullBlobsEndBlobs(cfg: Config, w: World, s: Selection, pool: seq<PoolTx>,
                                             i: nat, j: nat)
    requires i < j < |Greedy(cfg, w, s, pool).log|
    requires var log := Greedy(cfg, w, s, pool).log;
             && log[i].verdict.Include? && IsBlob(log[i].pooled)
             && Total(Blobs, s.included + Includes(log[..i + 1])) == MaxBlobs(cfg)
    ensures !IsBlob(Greedy(cfg, w, s, pool).log[j].pooled)
    decreases |pool|
  {
    hide *;
    Unfold(cfg, w, s, pool);
    var p := Step(cfg, w, s, pool);
    var _ := StepEffect(cfg, w, s, pool);
    var log, tail := Greedy(cfg, w, s, pool).log, Greedy(cfg, w, p.next, p.rest).log;
    if i == 0 {
      assert log[..1] == [p.event];
      StepFillsBlobs(cfg, w, s, pool);
      YieldsAvoidInvalid(cfg, w, p.next, p.rest, j - 1);
    } else {
      assert log[..i + 1] == [p.event] + tail[..i];
      IncludesAppend([p.event], tail[..i]);
      Regroup(s.included, Includes([p.event]), Includes(tail[..i]));
      FullBlobsEndBlobs(cfg, w, p.next, p.rest, i - 1, j - 1);
    }
  }
}
