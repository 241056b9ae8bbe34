/** The streaming state of the held position is justified by the points observed since its entry. */
module SessionHistory {
  import opened Basics
  import opened ExitPolicy
  import opened SessionPoints
  import opened SessionSpec
  import SessionSafety

  // ---------------------------------------------------------------------------------------------
  // What the history says, without streaming

  /** What each streaming counter counts: points with a one-minute return, or a depth ratio, of at most the
      profile's. */
  function Negative(exit: ExitProfile): Point -> bool {
    (q: Point) => q.ret1mBps.Some? && exit.ret1mNegBps.Some? && q.ret1mBps.value <= exit.ret1mNegBps.value
  }

  function Failing(exit: ExitProfile): Point -> bool {
    (q: Point) => exit.bookFailDepthRatio.Some? && q.depthRatio <= exit.bookFailDepthRatio.value
  }

  /** `n` counts the points up to the last that passed the test without a break: those observed since the last
      failure, or, if there was none, all of them on top of the `carried` count. */
  ghost predicate IsRun(test: Point -> bool, carried: int, observed: seq<Point>, n: int) {
    || (n == carried + |observed| && forall i :: 0 <= i < |observed| ==> test(observed[i]))
    || (&& 0 <= n < |observed|
        && !test(observed[|observed| - 1 - n])
        && forall i :: |observed| - n <= i < |observed| ==> test(observed[i]))
  }

  /** `peak` is the highest of `start` and the observed bids. */
  ghost predicate IsPeak(start: real, observed: seq<Point>, peak: real) {
    && start <= peak
    && (forall i :: 0 <= i < |observed| ==> observed[i].snapshot.bid <= peak)
    && (start == peak || exists i :: 0 <= i < |observed| && observed[i].snapshot.bid == peak)
  }

  /** Position `p` is `base` after observing exactly `observed`. */
  ghost predicate HasSeen(exit: ExitProfile, base: Position, observed: seq<Point>, p: Position) {
    && p == base.(negativeRet1m := p.negativeRet1m, bookFailures := p.bookFailures, peakBid := p.peakBid)
    && IsRun(Negative(exit), base.negativeRet1m, observed, p.negativeRet1m)
    && IsRun(Failing(exit), base.bookFailures, observed, p.bookFailures)
    && IsPeak(base.peakBid, observed, p.peakBid)
  }

  lemma NothingSeen(exit: ExitProfile, base: Position)
    ensures HasSeen(exit, base, [], base)
  {
  }

  lemma ObserveOneMore(exit: ExitProfile, base: Position, observed: seq<Point>, p: Position, q: Point)
    requires HasSeen(exit, base, observed, p)
    ensures HasSeen(exit, base, observed + [q], Observe(exit, p, q))
  {
    hide IsRun, IsPeak;
    PeakGrows(base.peakBid, observed, p.peakBid, q);
    RunGrows(Negative(exit), base.negativeRet1m, observed, p.negativeRet1m, q);
    RunGrows(Failing(exit), base.bookFailures, observed, p.bookFailures, q);
  }

  lemma PeakGrows(start: real, observed: seq<Point>, peak: real, q: Point)
    requires IsPeak(start, observed, peak)
    ensures IsPeak(start, observed + [q], Max(peak, q.snapshot.bid))
  {
    var now := observed + [q];
    assert now[|observed|] == q;
    if peak >= q.snapshot.bid && start != peak {
      var i :| 0 <= i < |observed| && observed[i].snapshot.bid == peak;
      assert now[i].snapshot.bid == peak;
    }
  }

  lemma RunGrows(test: Point -> bool, carried: int, observed: seq<Point>, n: int, q: Point)
    requires IsRun(test, carried, observed, n)
    ensures IsRun(test, carried, observed + [q], if test(q) then n + 1 else 0)
  {
    var now := observed + [q];
    assert now[|observed|] == q;
    var unbroken := n == carried + |observed| && forall i :: 0 <= i < |observed| ==> test(observed[i]);
    if test(q) && !unbroken {
      assert now[|now| - 1 - (n + 1)] == observed[|observed| - 1 - n];
    }
  }

  // ---------------------------------------------------------------------------------------------
  // Histories of a run

  /** The points of `market` in the buckets, one per bucket at most. */
  function ObservedIn(bs: seq<Bucket>, market: string): seq<Point> {
    if bs == [] then []
    else
      var n := |bs| - 1;
      var q := HeldPoint(bs[n], market);
      ObservedIn(bs[..n], market) + (if q.Some? then [q.value] else [])
  }

  /** Bucket `k` of the run bought `p`, and everything `p` says is read off the points since. */
  ghost predicate OpenedAt(cfg: Config, core: Core, bs: seq<Bucket>, k: nat, p: Position) {
    && k < |bs|
    && var outcome := OutcomeAt(cfg, core, bs, k);
    && outcome.Entered?
    && outcome.entryPoint in bs[k]
    && HasSeen(cfg.exit, Open(outcome.entryPoint, outcome.notional), ObservedIn(bs[k + 1..], p.market), p)
  }

  /** `p` was carried in, and everything it says is read off the carried position and the points of the run. */
  ghost predicate CarriedThrough(cfg: Config, core: Core, bs: seq<Bucket>, p: Position) {
    core.position.Some? && HasSeen(cfg.exit, core.position.value, ObservedIn(bs, p.market), p)
  }

  /** Every position a run holds was carried in or was opened by one of its buckets, and carries exactly the
      counters and the peak recomputed from there and from the points of its market since. */
  lemma {:induction false} PositionHasHistory(cfg: Config, core: Core, bs: seq<Bucket>)
    ensures var end := CoreAfter(cfg, core, bs);
            end.position.Some? ==>
              || CarriedThrough(cfg, core, bs, end.position.value)
              || exists k :: OpenedAt(cfg, core, bs, k, end.position.value)
  {
    hide CoreStep, HasSeen;
    if bs == [] {
      if core.position.Some? {
        NothingSeen(cfg.exit, core.position.value);
      }
    } else {
      var n := |bs| - 1;
      var init := bs[..n];
      PositionHasHistory(cfg, core, init);
      var before, after := CoreAfter(cfg, core, init), CoreAfter(cfg, core, bs);
      if after.position.Some? {
        if before.position.None? {
          EntryOpens(cfg, core, bs);
        } else {
          var p := before.position.value;
          SurvivorObserved(cfg, before, bs[n]);
          if CarriedThrough(cfg, core, init, p) {
            CarriedExtends(cfg, core, bs, p);
          } else {
            var k :| OpenedAt(cfg, core, init, k, p);
            HistoryExtends(cfg, core, bs, k, p);
          }
        }
      }
    }
  }

  lemma EntryOpens(cfg: Config, core: Core, bs: seq<Bucket>)
    requires bs != [] && CoreAfter(cfg, core, bs[..|bs| - 1]).position.None? && CoreAfter(cfg, core, bs).position.Some?
    ensures OpenedAt(cfg, core, bs, |bs| - 1, CoreAfter(cfg, core, bs).position.value)
  {
    hide HasSeen;
    var n := |bs| - 1;
    assert bs[n + 1..] == [];
    var outcome := OutcomeAt(cfg, core, bs, n);
    assert outcome.Entered?;
    NothingSeen(cfg.exit, Open(outcome.entryPoint, outcome.notional));
  }

  /** A position that survives a bucket is the old one, updated if its market was seen. */
  lemma SurvivorObserved(cfg: Config, core: Core, bucket: Bucket)
    requires core.position.Some? && CoreStep(cfg, core, bucket).0.position.Some?
    ensures var p, q := core.position.value, HeldPoint(bucket, core.position.value.market);
            CoreStep(cfg, core, bucket).0.position.value == if q.Some? then Observe(cfg.exit, p, q.value) else p
  {
  }

  /** One more bucket: the history of the position grows by the bucket's point of its market. */
  lemma HistoryExtends(cfg: Config, core: Core, bs: seq<Bucket>, k: nat, p: Position)
    requires bs != [] && OpenedAt(cfg, core, bs[..|bs| - 1], k, p)
    ensures var q := HeldPoint(bs[|bs| - 1], p.market);
            OpenedAt(cfg, core, bs, k, if q.Some? then Observe(cfg.exit, p, q.value) else p)
  {
    hide HasSeen, CoreStep;
    var n := |bs| - 1;
    var init := bs[..n];
    assert init[..k] == bs[..k] && init[k] == bs[k];
    ObservedSnoc(bs, k, p.market);
    var outcome := OutcomeAt(cfg, core, bs, k);
    var q := HeldPoint(bs[n], p.market);
    if q.Some? {
      ObserveOneMore(cfg.exit, Open(outcome.entryPoint, outcome.notional),
                     ObservedIn(init[k + 1..], p.market), p, q.value);
    }
  }

  lemma CarriedExtends(cfg: Config, core: Core, bs: seq<Bucket>, p: Position)
    requires bs != [] && CarriedThrough(cfg, core, bs[..|bs| - 1], p)
    ensures var q := HeldPoint(bs[|bs| - 1], p.market);
            CarriedThrough(cfg, core, bs, if q.Some? then Observe(cfg.exit, p, q.value) else p)
  {
    hide HasSeen;
    var n := |bs| - 1;
    var seen, q := ObservedIn(bs[..n], p.market), HeldPoint(bs[n], p.market);
    if q.Some? {
      ObserveOneMore(cfg.exit, core.position.value, seen, p, q.value);
    } else {
      assert seen + [] == seen;
    }
  }

  lemma ObservedSnoc(bs: seq<Bucket>, k: nat, market: string)
    requires k < |bs| - 1
    ensures var q := HeldPoint(bs[|bs| - 1], market);
            var before := ObservedIn(bs[..|bs| - 1][k + 1..], market);
            ObservedIn(bs[k + 1..], market) == if q.Some? then before + [q.value] else before
  {
    var n := |bs| - 1;
    var later := bs[k + 1..];
    assert later[..|later| - 1] == bs[..n][k + 1..] && later[|later| - 1] == bs[n];
    assert ObservedIn(bs[..n][k + 1..], market) + [] == ObservedIn(bs[..n][k + 1..], market);
  }

  // ---------------------------------------------------------------------------------------------
  // Exits

  /** The last `count` observed points passed the test; where no point failed it, the carried count and they reach
      `count` together. */
  ghost predicate Confirmed(test: Point -> bool, carried: int, observed: seq<Point>, count: int) {
    && (forall i :: 0 <= i < |observed| && |observed| - count <= i ==> test(observed[i]))
    && ((forall i :: 0 <= i < |observed| ==> test(observed[i])) ==> carried + |observed| >= count)
  }

  /** The position has been worth protecting: some bid since its base reached 0.18% above the entry price. */
  ghost predicate WasUp(base: Position, observed: seq<Point>) {
    && base.entryPrice > 0.0
    && (|| base.peakBid >= base.entryPrice * 1.0018
        || exists i :: 0 <= i < |observed| && observed[i].snapshot.bid >= base.entryPrice * 1.0018)
  }

  /** At `q` the position is at least `ms` old; with an unknown entry time it counts as new. */
  predicate Aged(base: Position, q: Point, ms: int) {
    if base.enteredAtMs > 0 then q.ts - base.enteredAtMs >= ms else ms <= 0
  }

  ghost predicate TurnedDown(exit: ExitProfile, base: Position, observed: seq<Point>)
    requires observed != []
  {
    && var last := observed[|observed| - 1];
    && Negative(exit)(last)
    && Confirmed(Negative(exit), base.negativeRet1m, observed, exit.ret1mConfirmCount)
    && Aged(base, last, 60_000)
    && WasUp(base, observed)
  }

  ghost predicate LostBook(exit: ExitProfile, base: Position, observed: seq<Point>)
    requires observed != []
  {
    && var last := observed[|observed| - 1];
    && Failing(exit)(last)
    && Confirmed(Failing(exit), base.bookFailures, observed, exit.bookFailConfirmCount)
    && Aged(base, last, 120_000)
    && WasUp(base, observed)
    && last.snapshot.bid > base.entryPrice
    && last.ret5mBps <= 0.0
  }

  predicate RanOut(exit: ExitProfile, base: Position, last: Point) {
    && Aged(base, last, exit.maxHoldMs)
    && (exit.timeStopRequiresNonpositiveRet5m && last.ret5mBps > 0.0 ==>
          exit.maxPositiveTrendHoldMs.Some? && Aged(base, last, exit.maxPositiveTrendHoldMs.value))
  }

  /** The history since `base` calls for a sell for `reason` at the last of `observed`. */
  ghost predicate ExitEvidence(exit: ExitProfile, base: Position, observed: seq<Point>, reason: ExitReason) {
    && observed != []
    && var last := observed[|observed| - 1];
    && var stopped := !Exceeds(last.snapshot.bid, base.entryPrice, 1.0 - exit.stopLossPct / 100.0);
    && var taken := && exit.takeProfitPct.Some?
                    && Reaches(last.snapshot.bid, base.entryPrice, 1.0 + exit.takeProfitPct.value / 100.0);
    && var negative, failing := TurnedDown(exit, base, observed), LostBook(exit, base, observed);
    match reason
    case StopLoss => stopped
    case TakeProfit => !stopped && taken
    case Ret1mNegative => !stopped && !taken && negative
    case BookFail => !stopped && !taken && !negative && failing
    case TimeStop => !stopped && !taken && !negative && !failing && RanOut(exit, base, last)
  }

  lemma RunConfirms(test: Point -> bool, carried: int, observed: seq<Point>, n: int, count: int)
    requires IsRun(test, carried, observed, n)
    ensures n >= count <==> Confirmed(test, carried, observed, count)
  {
    if 0 <= n < |observed| && !test(observed[|observed| - 1 - n]) && n < count {
      assert |observed| - count <= |observed| - 1 - n;
    }
  }

  lemma PeakIsWitnessed(base: Position, observed: seq<Point>, peak: real)
    requires IsPeak(base.peakBid, observed, peak) && observed != []
    ensures Reaches(peak, base.entryPrice, 1.0018) <==> WasUp(base, observed)
  {
    assert observed[0].snapshot.bid <= peak;
  }

  /** The streamed state decides an exit exactly as the history it stands for. */
  lemma HistoryDecides(exit: ExitProfile, base: Position, observed: seq<Point>, p: Position)
    requires observed != [] && HasSeen(exit, base, observed, p)
    ensures forall reason ::
              ExitFor(exit, p, observed[|observed| - 1]) == Some(reason) <==> ExitEvidence(exit, base, observed, reason)
  {
    hide IsRun, IsPeak, Confirmed, WasUp, Reaches, Exceeds, EvaluateExit;
    var last := observed[|observed| - 1];
    var c := ExitContext(p.entryPrice, last.snapshot.bid, HoldingMs(p, last.ts), last.ret1mBps, last.depthRatio,
                         p.negativeRet1m, p.bookFailures, p.peakBid, Some(last.ret5mBps));
    ExitInPrices(c, exit);
    PeakIsWitnessed(base, observed, p.peakBid);
    RunConfirms(Negative(exit), base.negativeRet1m, observed, p.negativeRet1m, exit.ret1mConfirmCount);
    RunConfirms(Failing(exit), base.bookFailures, observed, p.bookFailures, exit.bookFailConfirmCount);
    WasUpNeedsPrice(base, observed);
    AboveEntry(last.snapshot.bid, base.entryPrice);
    assert TurnsDown(c, exit) <==> TurnedDown(exit, base, observed);
    assert LosesBook(c, exit) <==> LostBook(exit, base, observed);
    assert RunsOut(c, exit) <==> RanOut(exit, base, last);
  }

  lemma WasUpNeedsPrice(base: Position, observed: seq<Point>)
    ensures WasUp(base, observed) ==> base.entryPrice > 0.0
  {
  }

  lemma AboveEntry(price: real, entry: NonZero)
    ensures entry > 0.0 ==> (Exceeds(price, entry, 1.0) <==> price > entry)
  {
  }

  /** The last bucket decides on the position that `base` became after `observed`: it is sold for a reason iff the
      history calls for that reason, at the last of these points; otherwise it is kept, having seen them. */
  ghost predicate DecidedAfter(cfg: Config, core: Core, bs: seq<Bucket>, base: Position, observed: seq<Point>)
    requires bs != []
  {
    && observed != []
    && var outcome, end := OutcomeAt(cfg, core, bs, |bs| - 1), CoreAfter(cfg, core, bs);
    && (forall reason ::
          outcome.Exited? && outcome.reason == reason <==> ExitEvidence(cfg.exit, base, observed, reason))
    && (outcome.Exited? ==>
          && observed[|observed| - 1] == outcome.exitPoint
          && HasSeen(cfg.exit, base, observed, outcome.closed) && end.position.None?)
    && (!outcome.Exited? ==> end.position.Some? && HasSeen(cfg.exit, base, observed, end.position.value))
  }

  /** The position decided on was opened by bucket `k`. */
  ghost predicate DecidedOpened(cfg: Config, core: Core, bs: seq<Bucket>, k: nat) {
    && k < |bs| - 1
    && var outcome := OutcomeAt(cfg, core, bs, k);
    && outcome.Entered?
    && DecidedAfter(cfg, core, bs, Open(outcome.entryPoint, outcome.notional),
                    ObservedIn(bs[k + 1..], outcome.entryPoint.market))
  }

  /** The position decided on was carried in. */
  ghost predicate DecidedCarried(cfg: Config, core: Core, bs: seq<Bucket>)
    requires bs != []
  {
    && core.position.Some?
    && DecidedAfter(cfg, core, bs, core.position.value, ObservedIn(bs, core.position.value.market))
  }

  /** The position that the last bucket starts with, if its market is there. */
  predicate Watched(cfg: Config, core: Core, bs: seq<Bucket>)
    requires bs != []
  {
    var before := CoreAfter(cfg, core, bs[..|bs| - 1]).position;
    before.Some? && HeldPoint(bs[|bs| - 1], before.value.market).Some?
  }

  /** Whenever the held market is in the bucket, the position is sold exactly for the reason, if any, that the points
      observed since its entry call for; for a carried position, the points since the start of the run together with
      what it brought along. */
  lemma ExitsAreDecidedByHistory(cfg: Config, core: Core, bs: seq<Bucket>)
    requires bs != [] && Watched(cfg, core, bs)
    ensures DecidedCarried(cfg, core, bs) || exists k :: DecidedOpened(cfg, core, bs, k)
  {
    hide HasSeen, ExitEvidence, ExitFor, CoreStep;
    var n := |bs| - 1;
    var init := bs[..n];
    PositionHasHistory(cfg, core, init);
    var p := CoreAfter(cfg, core, init).position.value;
    var q := HeldPoint(bs[n], p.market).value;
    var seen := Observe(cfg.exit, p, q);
    WatchedStep(cfg, CoreAfter(cfg, core, init), bs[n]);
    if CarriedThrough(cfg, core, init, p) {
      CarriedExtends(cfg, core, bs, p);
      var base, observed := core.position.value, ObservedIn(bs, p.market);
      SeenKeepsMarket(cfg.exit, base, observed, seen);
      HistoryDecides(cfg.exit, base, observed, seen);
    } else {
      var k :| OpenedAt(cfg, core, init, k, p);
      HistoryExtends(cfg, core, bs, k, p);
      ObservedSnoc(bs, k, p.market);
      var outcome := OutcomeAt(cfg, core, bs, k);
      var base, observed := Open(outcome.entryPoint, outcome.notional), ObservedIn(bs[k + 1..], p.market);
      SeenKeepsMarket(cfg.exit, base, observed, seen);
      HistoryDecides(cfg.exit, base, observed, seen);
      assert DecidedOpened(cfg, core, bs, k);
    }
  }

  /** With its market in the bucket a position is observed, then sold or kept as the exit decision says. */
  lemma WatchedStep(cfg: Config, core: Core, bucket: Bucket)
    requires core.position.Some? && HeldPoint(bucket, core.position.value.market).Some?
    ensures var (next, outcome) := CoreStep(cfg, core, bucket);
            var q := HeldPoint(bucket, core.position.value.market).value;
            var seen := Observe(cfg.exit, core.position.value, q);
            var exit := ExitFor(cfg.exit, seen, q);
            && (exit.Some? ==> outcome == Exited(seen, q, exit.value) && next.position.None?)
            && (exit.None? ==> outcome == HeldOpen && next.position == Some(seen))
            && seen.market == core.position.value.market
  {
    hide ExitFor;
  }

  lemma SeenKeepsMarket(exit: ExitProfile, base: Position, observed: seq<Point>, p: Position)
    requires HasSeen(exit, base, observed, p)
    ensures p.market == base.market
  {
  }

  // ---------------------------------------------------------------------------------------------
  // Bounded holding

  /** After a bucket that contains the held market, a position with a known entry time is younger than the
      hold bound of its profile; without a bound it is younger than the maximum hold, or its five-minute
      return at that bucket is positive. */
  lemma HoldingIsBounded(cfg: Config, core: Core, bs: seq<Bucket>)
    requires ValidBuckets(bs) && bs != [] && cfg.exit.maxHoldMs > 0
    requires var end := CoreAfter(cfg, core, bs).position;
             end.Some? && end.value.enteredAtMs > 0 && HeldPoint(bs[|bs| - 1], end.value.market).Some?
    ensures var p := CoreAfter(cfg, core, bs).position.value;
            var q := HeldPoint(bs[|bs| - 1], p.market).value;
            && (HoldBoundMs(cfg.exit).Some? ==> q.ts - p.enteredAtMs < HoldBoundMs(cfg.exit).value)
            && (q.ts - p.enteredAtMs < cfg.exit.maxHoldMs || q.ret5mBps > 0.0)
  {
    var n := |bs| - 1;
    assert ValidBucket(bs[n]);
    StepHoldingIsBounded(cfg, CoreAfter(cfg, core, bs[..n]), bs[n]);
  }

  lemma StepHoldingIsBounded(cfg: Config, core: Core, bucket: Bucket)
    requires ValidBucket(bucket) && cfg.exit.maxHoldMs > 0
    requires var end := CoreStep(cfg, core, bucket).0.position;
             end.Some? && end.value.enteredAtMs > 0 && HeldPoint(bucket, end.value.market).Some?
    ensures var p := CoreStep(cfg, core, bucket).0.position.value;
            var q := HeldPoint(bucket, p.market).value;
            && (HoldBoundMs(cfg.exit).Some? ==> q.ts - p.enteredAtMs < HoldBoundMs(cfg.exit).value)
            && (q.ts - p.enteredAtMs < cfg.exit.maxHoldMs || q.ret5mBps > 0.0)
  {
    var p := CoreStep(cfg, core, bucket).0.position.value;
    var q := HeldPoint(bucket, p.market).value;
    if core.position.Some? {
      KeptPositionIsYoung(
        ExitContext(p.entryPrice, q.snapshot.bid, HoldingMs(p, q.ts), q.ret1mBps, q.depthRatio,
                    p.negativeRet1m, p.bookFailures, p.peakBid, Some(q.ret5mBps)),
        cfg.exit);
    } else {
      var entry := CoreStep(cfg, core, bucket).1.entryPoint;
      assert entry in bucket && q in bucket;
    }
  }

  /** An exit profile that holds on to a positive trend without a guard. */
  predicate Unguarded(exit: ExitProfile) {
    && exit.timeStopRequiresNonpositiveRet5m && exit.maxPositiveTrendHoldMs.None?
    && exit.stopLossPct > 0.0 && (exit.takeProfitPct.Some? ==> exit.takeProfitPct.value > 0.0)
  }

  /** At any age a position whose bid is at its entry price is kept while its five-minute return is positive. */
  lemma TrendKeeps(exit: ExitProfile, p: Position, q: Point)
    requires Unguarded(exit)
    requires q.snapshot.bid == p.entryPrice && q.ret5mBps > 0.0 && q.ret1mBps.None?
    ensures ExitFor(exit, p, q).None?
  {
    assert q.snapshot.bid / p.entryPrice == 1.0;
  }

  /** `k` decisions after `q`: the bid has come up to the ask of `q` and the five-minute return is positive. */
  function TrendPoint(q: Point, k: nat): Point {
    q.(ts := q.ts + DECISION_CADENCE_MS * k, ret5mBps := 1.0, ret1mBps := None,
       snapshot := q.snapshot.(bid := q.snapshot.ask))
  }

  function TrendBuckets(q: Point, n: nat): seq<Bucket> {
    if n == 0 then [[q]] else TrendBuckets(q, n - 1) + [[TrendPoint(q, n)]]
  }

  /** The unguarded profile has no bound: wherever a point is bought, there are runs with a point every 15 seconds
      after which that position is still held, at any age. */
  lemma {:induction false} TrendHoldIsUnbounded(cfg: Config, cash: real, q: Point, n: nat)
    requires Unguarded(cfg.exit)
    requires cfg.decide(q).tier.Some? && RequestedNotional(cfg, cash, q) >= MIN_ENTRY_NOTIONAL_KRW
    ensures var bs := TrendBuckets(q, n);
            && |bs| == n + 1 && ValidBuckets(bs)
            && bs[n][0].ts - q.ts == DECISION_CADENCE_MS * n
            && HeldSince(q, CoreAfter(cfg, Core(None, cash), bs).position)
  {
    hide RequestedNotional, CoreStep, ValidBucket;
    var bs := TrendBuckets(q, n);
    if n == 0 {
      assert bs[..0] == [];
      assert ValidBucket([q]) by {
        OnePointBucket(q);
      }
      SessionSafety.EntersAlone(cfg, cash, q);
    } else {
      TrendHoldIsUnbounded(cfg, cash, q, n - 1);
      var before := TrendBuckets(q, n - 1);
      assert bs[..|bs| - 1] == before;
      OnePointBucket(TrendPoint(q, n));
      LaterBucketValid(before, TrendPoint(q, n));
      TrendStepKeeps(cfg, CoreAfter(cfg, Core(None, cash), before), q, n);
    }
  }

  ghost predicate HeldSince(q: Point, position: Option<Position>) {
    && position.Some?
    && position.value.market == q.market
    && position.value.enteredAtMs == q.ts
    && position.value.entryPrice == q.snapshot.ask
  }

  lemma OnePointBucket(q: Point)
    ensures ValidBucket([q])
  {
  }

  lemma LaterBucketValid(before: seq<Bucket>, q: Point)
    requires before != [] && ValidBuckets(before) && before[|before| - 1][0].ts < q.ts && ValidBucket([q])
    ensures ValidBuckets(before + [[q]])
  {
    var n := |before| - 1;
    forall i | 0 <= i < |before| ensures ValidBucket(before[i]) && before[i][0].ts < q.ts {
      assert i < n ==> before[i][0].ts < before[n][0].ts;
    }
  }

  lemma TrendStepKeeps(cfg: Config, core: Core, q: Point, k: nat)
    requires Unguarded(cfg.exit) && HeldSince(q, core.position)
    ensures HeldSince(q, CoreStep(cfg, core, [TrendPoint(q, k)]).0.position)
  {
    hide ExitFor;
    var p, point := core.position.value, TrendPoint(q, k);
    assert HeldPoint([point], p.market) == Some(point);
    TrendKeeps(cfg.exit, Observe(cfg.exit, p, point), point);
  }
}
