/** The exit decision of `org_coin_data/exit_policy.py`. */
module ExitPolicy {
  import opened Basics

  datatype ExitReason = StopLoss | TakeProfit | Ret1mNegative | BookFail | TimeStop

  datatype ExitProfile = ExitProfile(
    stopLossPct: real,
    takeProfitPct: Option<real>,
    maxHoldMs: int,
    ret1mNegBps: Option<real>,
    ret1mConfirmCount: int,
    bookFailDepthRatio: Option<real>,
    bookFailConfirmCount: int,
    timeStopRequiresNonpositiveRet5m: bool,
    maxPositiveTrendHoldMs: Option<int>)

  datatype ExitContext = ExitContext(
    entryPrice: NonZero,
    currentBid: real,
    holdingMs: int,
    ret1mBps: Option<real>,
    depthRatio: real,
    consecutiveNegativeRet1m: int,
    consecutiveBookFailures: int,
    peakBid: real,
    ret5mBps: Option<real>)

  const MIN_RET_1M_EXIT_HOLD_MS := 60_000
  const MIN_BOOK_FAIL_EXIT_HOLD_MS := 120_000
  const MIN_PROFIT_PROTECT_PCT := 0.18
  const MAX_BOOK_FAIL_TREND_RET_5M_BPS := 0.0

  function PnlPct(price: real, entry: NonZero): real {
    (price / entry - 1.0) * 100.0
  }

  /** The test behind the streaming counter `consecutive_negative_ret_1m`. */
  predicate NegativeRet1m(profile: ExitProfile, ret1mBps: Option<real>) {
    profile.ret1mNegBps.Some? && ret1mBps.Some? && ret1mBps.value <= profile.ret1mNegBps.value
  }

  /** The test behind the streaming counter `consecutive_book_failures`. */
  predicate FailingBook(profile: ExitProfile, depthRatio: real) {
    profile.bookFailDepthRatio.Some? && depthRatio <= profile.bookFailDepthRatio.value
  }

  function EvaluateExit(c: ExitContext, profile: ExitProfile): Option<ExitReason> {
    var pnl := PnlPct(c.currentBid, c.entryPrice);
    var peakPnl := PnlPct(c.peakBid, c.entryPrice);
    if pnl <= -profile.stopLossPct then Some(StopLoss)
    else if profile.takeProfitPct.Some? && pnl >= profile.takeProfitPct.value then Some(TakeProfit)
    else if
      && NegativeRet1m(profile, c.ret1mBps)
      && c.holdingMs >= MIN_RET_1M_EXIT_HOLD_MS
      && peakPnl >= MIN_PROFIT_PROTECT_PCT
      && c.consecutiveNegativeRet1m >= profile.ret1mConfirmCount
    then Some(Ret1mNegative)
    else if
      && FailingBook(profile, c.depthRatio)
      && c.holdingMs >= MIN_BOOK_FAIL_EXIT_HOLD_MS
      && peakPnl >= MIN_PROFIT_PROTECT_PCT
      && pnl > 0.0
      && (c.ret5mBps.None? || c.ret5mBps.value <= MAX_BOOK_FAIL_TREND_RET_5M_BPS)
      && c.consecutiveBookFailures >= profile.bookFailConfirmCount
    then Some(BookFail)
    else if
      && c.holdingMs >= profile.maxHoldMs
      && (|| !profile.timeStopRequiresNonpositiveRet5m
          || c.ret5mBps.None?
          || c.ret5mBps.value <= 0.0
          || (profile.maxPositiveTrendHoldMs.Some? && c.holdingMs >= profile.maxPositiveTrendHoldMs.value))
    then Some(TimeStop)
    else None
  }

  /** `price` is at least `level` times `entry`; relative to a negative entry price the order turns round. */
  predicate Reaches(price: real, entry: NonZero, level: real) {
    if entry > 0.0 then price >= entry * level else price <= entry * level
  }

  predicate Exceeds(price: real, entry: NonZero, level: real) {
    if entry > 0.0 then price > entry * level else price < entry * level
  }

  /** A percentage threshold on the profit is a price threshold relative to the entry. */
  lemma PnlPctInPrices(price: real, entry: NonZero, pct: real)
    ensures PnlPct(price, entry) >= pct <==> Reaches(price, entry, 1.0 + pct / 100.0)
    ensures PnlPct(price, entry) > pct <==> Exceeds(price, entry, 1.0 + pct / 100.0)
  {
    var ratio := price / entry;
    assert price == ratio * entry;
    var level := 1.0 + pct / 100.0;
    assert PnlPct(price, entry) >= pct <==> ratio >= level;
    assert PnlPct(price, entry) > pct <==> ratio > level;
    var gap := (ratio - level) * entry;
    assert gap == price - entry * level;
    if ratio > level {
      SignOfProduct(ratio - level, entry);
    } else if ratio < level {
      SignOfProduct(level - ratio, entry);
    }
  }

  lemma SignOfProduct(a: real, b: NonZero)
    requires a > 0.0
    ensures a * b > 0.0 <==> b > 0.0
    ensures a * b < 0.0 <==> b < 0.0
  {
  }

  /** The age at which every position is closed whatever the trend, if there is one. */
  function HoldBoundMs(profile: ExitProfile): Option<int> {
    if !profile.timeStopRequiresNonpositiveRet5m then Some(profile.maxHoldMs)
    else if profile.maxPositiveTrendHoldMs.Some? then
      Some(MaxInt(profile.maxHoldMs, profile.maxPositiveTrendHoldMs.value))
    else None
  }

  /** A position is kept only while it is young, or while an unguarded positive trend lasts. */
  lemma KeptPositionIsYoung(c: ExitContext, profile: ExitProfile)
    requires EvaluateExit(c, profile).None?
    ensures HoldBoundMs(profile).Some? ==> c.holdingMs < HoldBoundMs(profile).value
    ensures c.holdingMs < profile.maxHoldMs || (c.ret5mBps.Some? && c.ret5mBps.value > 0.0)
  {
  }

  // ---------------------------------------------------------------------------------------------
  // Each exit in prices, times and counts

  predicate StopsOut(c: ExitContext, profile: ExitProfile) {
    !Exceeds(c.currentBid, c.entryPrice, 1.0 - profile.stopLossPct / 100.0)
  }

  predicate TakesProfit(c: ExitContext, profile: ExitProfile) {
    profile.takeProfitPct.Some? && Reaches(c.currentBid, c.entryPrice, 1.0 + profile.takeProfitPct.value / 100.0)
  }

  /** After a minute, and once up by 0.18%, the one-minute return is and stays at most the profile's. */
  predicate TurnsDown(c: ExitContext, profile: ExitProfile) {
    && c.ret1mBps.Some? && profile.ret1mNegBps.Some? && c.ret1mBps.value <= profile.ret1mNegBps.value
    && c.consecutiveNegativeRet1m >= profile.ret1mConfirmCount
    && c.holdingMs >= 60_000
    && Reaches(c.peakBid, c.entryPrice, 1.0018)
  }

  /** After two minutes, still in profit and once up by 0.18%, the book is and stays thin without a rising trend. */
  predicate LosesBook(c: ExitContext, profile: ExitProfile) {
    && profile.bookFailDepthRatio.Some? && c.depthRatio <= profile.bookFailDepthRatio.value
    && c.consecutiveBookFailures >= profile.bookFailConfirmCount
    && c.holdingMs >= 120_000
    && Reaches(c.peakBid, c.entryPrice, 1.0018) && Exceeds(c.currentBid, c.entryPrice, 1.0)
    && (c.ret5mBps.Some? ==> c.ret5mBps.value <= 0.0)
  }

  /** The maximum hold is over, unless the profile holds on to a rising trend that its guard does not yet end. */
  predicate RunsOut(c: ExitContext, profile: ExitProfile) {
    && c.holdingMs >= profile.maxHoldMs
    && (profile.timeStopRequiresNonpositiveRet5m && c.ret5mBps.Some? && c.ret5mBps.value > 0.0 ==>
          profile.maxPositiveTrendHoldMs.Some? && c.holdingMs >= profile.maxPositiveTrendHoldMs.value)
  }

  /** Exactly when each exit happens, the earlier ones taking precedence; a position is kept iff none of the five
      conditions is met. */
  lemma ExitInPrices(c: ExitContext, profile: ExitProfile)
    ensures EvaluateExit(c, profile) == Some(StopLoss) <==> StopsOut(c, profile)
    ensures EvaluateExit(c, profile) == Some(TakeProfit) <==> !StopsOut(c, profile) && TakesProfit(c, profile)
    ensures EvaluateExit(c, profile) == Some(Ret1mNegative)
       <==> !StopsOut(c, profile) && !TakesProfit(c, profile) && TurnsDown(c, profile)
    ensures EvaluateExit(c, profile) == Some(BookFail)
       <==> (&& !StopsOut(c, profile) && !TakesProfit(c, profile) && !TurnsDown(c, profile)
             && LosesBook(c, profile))
    ensures EvaluateExit(c, profile) == Some(TimeStop)
       <==> (&& !StopsOut(c, profile) && !TakesProfit(c, profile) && !TurnsDown(c, profile)
             && !LosesBook(c, profile) && RunsOut(c, profile))
  {
    hide PnlPct, Reaches, Exceeds;
    var down := -profile.stopLossPct;
    PnlPctInPrices(c.currentBid, c.entryPrice, down);
    assert 1.0 + down / 100.0 == 1.0 - profile.stopLossPct / 100.0;
    if profile.takeProfitPct.Some? {
      PnlPctInPrices(c.currentBid, c.entryPrice, profile.takeProfitPct.value);
    }
    PnlPctInPrices(c.peakBid, c.entryPrice, MIN_PROFIT_PROTECT_PCT);
    assert 1.0 + MIN_PROFIT_PROTECT_PCT / 100.0 == 1.0018;
    PnlPctInPrices(c.currentBid, c.entryPrice, 0.0);
  }
}
