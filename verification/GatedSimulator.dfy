/** The derivatives-regime gate of `src/cli/analyze-binance-derivatives-gated-bithumb-momentum.ts`: one loop
    builds the ungated baseline and the gated trades side by side. */
module GatedSimulator {
  import opened Basics
  import opened RealArithmetic
  import Greedy

  datatype Candle = Candle(ts: int, close: Pos)

  /** A derivatives row; either field may be missing or unreadable. */
  datatype Row = Row(ts: Option<int>, value: Option<real>)

  datatype DerivativeRows = DerivativeRows(
    funding: seq<Row>, openInterest: seq<Row>, longShort: seq<Row>, taker: seq<Row>)

  datatype Args = Args(
    lookbackBars: nat,
    holdBars: nat,
    minReturnBps: real,
    notionalKrw: real,
    feeRate: real,
    maxFundingBps: real,
    minOpenInterestChangePct: real,
    maxLongShortRatio: real,
    minTakerRatio: real,
    openInterestLookbackMs: nat)

  datatype Trade = Trade(entryAt: int, exitAt: int, pnlKrw: real, regimePassed: bool)

  // ---------------------------------------------------------------------------------------------
  // The regime at an instant

  predicate KnownBy(row: Row, t: int) {
    row.ts.Some? && row.ts.value <= t
  }

  /** The rows whose time is known and not after `t`, in their order. */
  function Known(rows: seq<Row>, t: int): seq<Row> {
    if rows == [] then []
    else Known(rows[..|rows| - 1], t) + (if KnownBy(rows[|rows| - 1], t) then [rows[|rows| - 1]] else [])
  }

  function Last(rows: seq<Row>): Option<Row> {
    if rows == [] then None else Some(rows[|rows| - 1])
  }

  /** `lowerOrEqual`: a scan that keeps the last row known by `t`. */
  method LowerOrEqual(rows: seq<Row>, t: int) returns (result: Option<Row>)
    ensures result == Last(Known(rows, t))
  {
    result := None;
    for i := 0 to |rows|
      invariant result == Last(Known(rows[..i], t))
    {
      assert rows[..i + 1][..i] == rows[..i];
      if KnownBy(rows[i], t) {
        result := Some(rows[i]);
      }
    }
    assert rows[..|rows|] == rows;
  }

  /** The figure of a row, if there is a row and it can be read. */
  function ValueOf(row: Option<Row>): Option<real> {
    if row.Some? then row.value.value else None
  }

  function ValueAt(rows: seq<Row>, t: int): Option<real> {
    ValueOf(Last(Known(rows, t)))
  }

  /** A missing or unreadable figure never passes. */
  predicate RegimePass(d: DerivativeRows, t: int, args: Args) {
    var funding := ValueAt(d.funding, t);
    var now := ValueAt(d.openInterest, t);
    var before := ValueAt(d.openInterest, t - args.openInterestLookbackMs);
    var longShort := ValueAt(d.longShort, t);
    var taker := ValueAt(d.taker, t);
    && funding.Some? && funding.value * 10_000.0 <= args.maxFundingBps
    && now.Some? && before.Some? && before.value > 0.0
    && (now.value / before.value - 1.0) * 100.0 >= args.minOpenInterestChangePct
    && longShort.Some? && longShort.value <= args.maxLongShortRatio
    && taker.Some? && taker.value >= args.minTakerRatio
  }

  /** `derivativeRegimePass`: each figure is looked up by its own scan. */
  method TestRegime(d: DerivativeRows, t: int, args: Args) returns (passes: bool)
    ensures passes == RegimePass(d, t, args)
  {
    hide Known;
    var funding := LowerOrEqual(d.funding, t);
    var openInterest := LowerOrEqual(d.openInterest, t);
    var previous := LowerOrEqual(d.openInterest, t - args.openInterestLookbackMs);
    var longShort := LowerOrEqual(d.longShort, t);
    var taker := LowerOrEqual(d.taker, t);
    var now, before := ValueOf(openInterest), ValueOf(previous);
    passes :=
      && ValueOf(funding).Some? && ValueOf(funding).value * 10_000.0 <= args.maxFundingBps
      && now.Some? && before.Some? && before.value > 0.0
      && (now.value / before.value - 1.0) * 100.0 >= args.minOpenInterestChangePct
      && ValueOf(longShort).Some? && ValueOf(longShort).value <= args.maxLongShortRatio
      && ValueOf(taker).Some? && ValueOf(taker).value >= args.minTakerRatio;
  }

  /** Two histories that are the same as far as they are known by `t`. */
  ghost predicate SameBy(a: DerivativeRows, b: DerivativeRows, t: int) {
    && Known(a.funding, t) == Known(b.funding, t)
    && Known(a.openInterest, t) == Known(b.openInterest, t)
    && Known(a.longShort, t) == Known(b.longShort, t)
    && Known(a.taker, t) == Known(b.taker, t)
  }

  lemma {:induction false} KnownEarlier(rows: seq<Row>, t: int, u: int)
    requires t <= u
    ensures Known(Known(rows, u), t) == Known(rows, t)
  {
    if rows != [] {
      var n := |rows| - 1;
      KnownEarlier(rows[..n], t, u);
      var known := Known(rows[..n], u);
      if KnownBy(rows[n], u) {
        assert (known + [rows[n]])[..|known|] == known;
      } else {
        assert known + [] == known;
      }
    }
  }

  /** The gate is causal: rows after the instant, or without a time, never matter. */
  lemma RegimeIsCausal(a: DerivativeRows, b: DerivativeRows, t: int, args: Args)
    requires SameBy(a, b, t)
    ensures RegimePass(a, t, args) == RegimePass(b, t, args)
  {
    var u := t - args.openInterestLookbackMs;
    KnownEarlier(a.openInterest, u, t);
    KnownEarlier(b.openInterest, u, t);
    assert ValueAt(a.openInterest, u) == ValueAt(b.openInterest, u);
  }

  // ---------------------------------------------------------------------------------------------
  // Which rows decide, and how

  /** Row `i` is the last one, in the order given, whose time is known and not after `t`. */
  ghost predicate IsLastKnown(rows: seq<Row>, t: int, i: nat) {
    && i < |rows|
    && rows[i].ts.Some? && rows[i].ts.value <= t
    && forall j :: i < j < |rows| && rows[j].ts.Some? ==> rows[j].ts.value > t
  }

  /** The last row known by `t` can be read, and says `v`. */
  ghost predicate Reads(rows: seq<Row>, t: int, v: real) {
    exists i: nat :: IsLastKnown(rows, t, i) && rows[i].value == Some(v)
  }

  ghost predicate NoneKnown(rows: seq<Row>, t: int) {
    forall j :: 0 <= j < |rows| && rows[j].ts.Some? ==> rows[j].ts.value > t
  }

  lemma {:induction false} LastKnown(rows: seq<Row>, t: int) returns (i: nat)
    ensures var last := Last(Known(rows, t));
            if last.None? then NoneKnown(rows, t) else IsLastKnown(rows, t, i) && rows[i] == last.value
  {
    i := 0;
    if rows != [] {
      var n := |rows| - 1;
      if KnownBy(rows[n], t) {
        i := n;
      } else {
        i := LastKnown(rows[..n], t);
        assert Known(rows, t) == Known(rows[..n], t);
      }
    }
  }

  lemma ValueIsRead(rows: seq<Row>, t: int, v: real)
    ensures ValueAt(rows, t) == Some(v) <==> Reads(rows, t, v)
  {
    hide Known;
    var k := LastKnown(rows, t);
    if Reads(rows, t, v) {
      var i: nat :| IsLastKnown(rows, t, i) && rows[i].value == Some(v);
      assert Last(Known(rows, t)).Some?;
      assert i == k;
    }
  }

  /** The five figures of an instant. */
  datatype Figures = Figures(funding: real, interest: real, interestBefore: real, longShort: real, taker: real)

  ghost predicate ReadAt(d: DerivativeRows, t: int, args: Args, f: Figures) {
    && Reads(d.funding, t, f.funding)
    && Reads(d.openInterest, t, f.interest)
    && Reads(d.openInterest, t - args.openInterestLookbackMs, f.interestBefore)
    && Reads(d.longShort, t, f.longShort)
    && Reads(d.taker, t, f.taker)
  }

  /** Funding is cheap, open interest has grown enough from a positive base, the crowd is not too long and takers
      buy. */
  predicate Favourable(f: Figures, args: Args) {
    && f.funding <= args.maxFundingBps / 10_000.0
    && f.interestBefore > 0.0 && f.interest >= f.interestBefore * (1.0 + args.minOpenInterestChangePct / 100.0)
    && f.longShort <= args.maxLongShortRatio
    && f.taker >= args.minTakerRatio
  }

  /** The regime passes iff all five figures can be read, each from the last row known at its time, and are
      favourable. */
  lemma RegimeIsDecided(d: DerivativeRows, t: int, args: Args)
    ensures RegimePass(d, t, args) <==> exists f :: ReadAt(d, t, args, f) && Favourable(f, args)
  {
    hide ValueAt, Reads;
    forall rows, u, v ensures ValueAt(rows, u) == Some(v) <==> Reads(rows, u, v) {
      ValueIsRead(rows, u, v);
    }
    var before := t - args.openInterestLookbackMs;
    if && ValueAt(d.funding, t).Some? && ValueAt(d.openInterest, t).Some? && ValueAt(d.openInterest, before).Some?
       && ValueAt(d.longShort, t).Some? && ValueAt(d.taker, t).Some?
    {
      var f := Figures(ValueAt(d.funding, t).value, ValueAt(d.openInterest, t).value,
                       ValueAt(d.openInterest, before).value, ValueAt(d.longShort, t).value, ValueAt(d.taker, t).value);
      assert ReadAt(d, t, args, f);
      FiguresPass(d, t, args, f);
      forall g | ReadAt(d, t, args, g) ensures g == f {
      }
    }
  }

  lemma FiguresPass(d: DerivativeRows, t: int, args: Args, f: Figures)
    requires ValueAt(d.funding, t) == Some(f.funding) && ValueAt(d.openInterest, t) == Some(f.interest)
    requires ValueAt(d.openInterest, t - args.openInterestLookbackMs) == Some(f.interestBefore)
    requires ValueAt(d.longShort, t) == Some(f.longShort) && ValueAt(d.taker, t) == Some(f.taker)
    ensures RegimePass(d, t, args) <==> Favourable(f, args)
  {
    hide ValueAt;
    if f.interestBefore > 0.0 {
      GrowthInFigures(f.interest, f.interestBefore, args.minOpenInterestChangePct);
    }
  }

  lemma GrowthInFigures(now: real, before: Pos, pct: real)
    ensures (now / before - 1.0) * 100.0 >= pct <==> now >= before * (1.0 + pct / 100.0)
  {
    var ratio, level := now / before, 1.0 + pct / 100.0;
    assert now == ratio * before;
    if ratio > level {
      assert (ratio - level) * before > 0.0;
    } else if ratio < level {
      assert (level - ratio) * before > 0.0;
    }
  }

  /** Cheaper funding, more open interest, fewer longs and more taker buying never close an open gate. */
  lemma BetterFiguresKeepRegime(
    a: DerivativeRows, b: DerivativeRows, t: int, args: Args, f: Figures, g: Figures)
    requires ReadAt(a, t, args, f) && ReadAt(b, t, args, g) && RegimePass(a, t, args)
    requires g.funding <= f.funding && g.interest >= f.interest && g.interestBefore == f.interestBefore
    requires g.longShort <= f.longShort && g.taker >= f.taker
    ensures RegimePass(b, t, args)
  {
    hide ValueAt, Reads, RegimePass;
    forall rows, u, v ensures ValueAt(rows, u) == Some(v) <==> Reads(rows, u, v) {
      ValueIsRead(rows, u, v);
    }
    FiguresPass(a, t, args, f);
    FiguresPass(b, t, args, g);
  }

  // ---------------------------------------------------------------------------------------------
  // Baseline and gated trades

  predicate Momentum(candles: seq<Candle>, args: Args, i: nat)
    requires i < |candles|
  {
    args.lookbackBars <= i && Bps(candles[i].close, candles[i - args.lookbackBars].close) >= args.minReturnBps
  }

  predicate Gated(candles: seq<Candle>, d: DerivativeRows, args: Args, i: nat)
    requires i < |candles|
  {
    Momentum(candles, args, i) && RegimePass(d, candles[i].ts, args)
  }

  function BaselineSignals(candles: seq<Candle>, args: Args): seq<bool> {
    seq(|candles|, i requires 0 <= i < |candles| => Momentum(candles, args, i))
  }

  function GatedSignals(candles: seq<Candle>, d: DerivativeRows, args: Args): seq<bool> {
    seq(|candles|, i requires 0 <= i < |candles| => Gated(candles, d, args, i))
  }

  function TradeAt(candles: seq<Candle>, d: DerivativeRows, args: Args, i: nat): Trade
    requires i + args.holdBars < |candles|
  {
    var exit := candles[i + args.holdBars];
    Trade(candles[i].ts, exit.ts, args.notionalKrw * (exit.close / candles[i].close - 1.0 - args.feeRate),
          RegimePass(d, candles[i].ts, args))
  }

  function TradesAt(candles: seq<Candle>, d: DerivativeRows, args: Args, entries: seq<nat>): seq<Trade>
    requires forall k :: 0 <= k < |entries| ==> entries[k] + args.holdBars < |candles|
  {
    seq(|entries|, k requires 0 <= k < |entries| => TradeAt(candles, d, args, entries[k]))
  }

  function FirstIndex(args: Args, startIndex: nat): nat {
    MaxInt(startIndex, args.lookbackBars)
  }

  function StopIndex(candles: seq<Candle>, args: Args, endIndex: int): nat {
    MaxInt(0, MinInt(endIndex + 1, |candles| - args.holdBars))
  }

  function BaselineEntries(candles: seq<Candle>, args: Args, startIndex: nat, endIndex: int): (s: seq<nat>)
    ensures forall k :: 0 <= k < |s| ==> s[k] + args.holdBars < |candles|
  {
    var first, stop := FirstIndex(args, startIndex), StopIndex(candles, args, endIndex);
    Greedy.GreedyIsRival(BaselineSignals(candles, args), args.holdBars, first, stop, startIndex);
    Greedy.Entries(BaselineSignals(candles, args), args.holdBars, first, stop, startIndex)
  }

  function GatedEntries(candles: seq<Candle>, d: DerivativeRows, args: Args, startIndex: nat, endIndex: int)
    : (s: seq<nat>)
    ensures forall k :: 0 <= k < |s| ==> s[k] + args.holdBars < |candles|
  {
    var first, stop := FirstIndex(args, startIndex), StopIndex(candles, args, endIndex);
    Greedy.GreedyIsRival(GatedSignals(candles, d, args), args.holdBars, first, stop, startIndex);
    Greedy.Entries(GatedSignals(candles, d, args), args.holdBars, first, stop, startIndex)
  }

  /** One pass of the loop for one of the two lists. */
  lemma EntriesStep(pass: seq<bool>, hold: nat, i: nat, stop: nat, next: int)
    requires i < stop <= |pass|
    ensures Greedy.Entries(pass, hold, i, stop, next)
         == if i >= next && pass[i] then [i] + Greedy.Entries(pass, hold, i + 1, stop, i + hold)
            else Greedy.Entries(pass, hold, i + 1, stop, next)
  {
  }

  /** Taking the head of what remains leaves the tail. */
  lemma TakeHead(all: seq<nat>, done: nat, i: nat, rest: seq<nat>)
    requires done <= |all| && all[done..] == [i] + rest
    ensures done < |all| && all[done] == i && all[done + 1..] == rest && all[..done + 1] == all[..done] + [i]
  {
    assert all[done..][0] == i;
    assert all[done..][1..] == rest;
  }

  lemma TradesSnoc(candles: seq<Candle>, d: DerivativeRows, args: Args, entries: seq<nat>, i: nat)
    requires forall k :: 0 <= k < |entries| ==> entries[k] + args.holdBars < |candles|
    requires i + args.holdBars < |candles|
    ensures TradesAt(candles, d, args, entries + [i])
         == TradesAt(candles, d, args, entries) + [TradeAt(candles, d, args, i)]
  {
    hide TradeAt;
  }

  /** One candidate list of the loop: enter if allowed, else leave the list as it is. */
  method Offer(candles: seq<Candle>, d: DerivativeRows, args: Args, trades: seq<Trade>, next: int, index: nat,
               allowed: bool, ghost pass: seq<bool>, ghost all: seq<nat>, ghost stop: nat)
    returns (trades': seq<Trade>, next': int)
    requires index < stop <= |pass| && index + args.holdBars < |candles| && allowed == pass[index]
    requires forall k :: 0 <= k < |all| ==> all[k] + args.holdBars < |candles|
    requires |trades| <= |all| && trades == TradesAt(candles, d, args, all[..|trades|])
    requires all[|trades|..] == Greedy.Entries(pass, args.holdBars, index, stop, next)
    ensures |trades'| <= |all| && trades' == TradesAt(candles, d, args, all[..|trades'|])
    ensures all[|trades'|..] == Greedy.Entries(pass, args.holdBars, index + 1, stop, next')
  {
    hide TradeAt, TradesAt;
    EntriesStep(pass, args.holdBars, index, stop, next);
    trades', next' := trades, next;
    if index >= next && allowed {
      TakeHead(all, |trades|, index, Greedy.Entries(pass, args.holdBars, index + 1, stop, index + args.holdBars));
      TradesSnoc(candles, d, args, all[..|trades|], index);
      trades' := trades + [TradeAt(candles, d, args, index)];
      next' := index + args.holdBars;
    }
  }

  method Simulate(candles: seq<Candle>, d: DerivativeRows, args: Args, startIndex: nat, endIndex: int)
    returns (baseline: seq<Trade>, gated: seq<Trade>)
    ensures baseline == TradesAt(candles, d, args, BaselineEntries(candles, args, startIndex, endIndex))
    ensures gated == TradesAt(candles, d, args, GatedEntries(candles, d, args, startIndex, endIndex))
  {
    hide Bps, TradeAt, RegimePass;
    baseline, gated := [], [];
    var nextBaseline: int, nextGated: int := startIndex, startIndex;
    var stop := StopIndex(candles, args, endIndex);
    var index := FirstIndex(args, startIndex);
    ghost var b, g := BaselineSignals(candles, args), GatedSignals(candles, d, args);
    ghost var allB := BaselineEntries(candles, args, startIndex, endIndex);
    ghost var allG := GatedEntries(candles, d, args, startIndex, endIndex);
    while index < stop
      invariant |baseline| <= |allB| && baseline == TradesAt(candles, d, args, allB[..|baseline|])
      invariant |gated| <= |allG| && gated == TradesAt(candles, d, args, allG[..|gated|])
      invariant allB[|baseline|..] == Greedy.Entries(b, args.holdBars, index, stop, nextBaseline)
      invariant allG[|gated|..] == Greedy.Entries(g, args.holdBars, index, stop, nextGated)
      decreases if index < stop then stop - index else 0
    {
      var momentum := Momentum(candles, args, index);
      var passed := false;
      if momentum {
        passed := TestRegime(d, candles[index].ts, args);
      }
      assert momentum == b[index] && passed == g[index];
      baseline, nextBaseline := Offer(candles, d, args, baseline, nextBaseline, index, momentum, b, allB, stop);
      gated, nextGated := Offer(candles, d, args, gated, nextGated, index, passed, g, allG, stop);
      index := index + 1;
    }
    assert allB[..|baseline|] == allB && allG[..|gated|] == allG;
  }

  /** The baseline is optimal: no choice of momentum bars of the range at least `holdBars` apart has more
      trades, and none has an earlier k-th entry. */
  lemma BaselineIsOptimal(candles: seq<Candle>, args: Args, startIndex: nat, endIndex: int, rival: seq<nat>)
    requires Greedy.IsRival(BaselineSignals(candles, args), args.holdBars, FirstIndex(args, startIndex),
                            StopIndex(candles, args, endIndex), rival)
    ensures var b := BaselineEntries(candles, args, startIndex, endIndex);
            |rival| <= |b| && forall k :: 0 <= k < |rival| ==> b[k] <= rival[k]
  {
    Greedy.GreedyStaysAhead(BaselineSignals(candles, args), args.holdBars, FirstIndex(args, startIndex),
                            StopIndex(candles, args, endIndex), startIndex, rival);
  }

  /** So gating never adds trades: the gated list is no longer than the baseline and its k-th entry is no
      earlier; every gated trade passed the regime, and the gated list is in turn optimal among choices of
      bars that pass it. */
  lemma GatingNeverAddsTrades(candles: seq<Candle>, d: DerivativeRows, args: Args, startIndex: nat, endIndex: int)
    ensures var b, g := BaselineEntries(candles, args, startIndex, endIndex),
                        GatedEntries(candles, d, args, startIndex, endIndex);
            && |g| <= |b|
            && (forall k :: 0 <= k < |g| ==> b[k] <= g[k] && Gated(candles, d, args, g[k]))
    ensures forall rival :: Greedy.IsRival(GatedSignals(candles, d, args), args.holdBars, FirstIndex(args, startIndex),
                                           StopIndex(candles, args, endIndex), rival) ==>
              var g := GatedEntries(candles, d, args, startIndex, endIndex);
              |rival| <= |g| && forall k :: 0 <= k < |rival| ==> g[k] <= rival[k]
  {
    hide RegimePass, Bps;
    var b, g := BaselineSignals(candles, args), GatedSignals(candles, d, args);
    var first, stop := FirstIndex(args, startIndex), StopIndex(candles, args, endIndex);
    Greedy.StricterFilterIsBehind(b, g, args.holdBars, first, stop, startIndex);
    Greedy.GreedyIsRival(g, args.holdBars, first, stop, startIndex);
    forall rival | Greedy.IsRival(g, args.holdBars, first, stop, rival)
      ensures var s := GatedEntries(candles, d, args, startIndex, endIndex);
              |rival| <= |s| && forall k :: 0 <= k < |rival| ==> s[k] <= rival[k]
    {
      Greedy.GreedyStaysAhead(g, args.holdBars, first, stop, startIndex, rival);
    }
  }

  // ---------------------------------------------------------------------------------------------
  // What the lists contain, in prices

  /** A bar is a momentum bar iff its close exceeds that of the lookback by the minimum; the regime is tested at its
      time. */
  lemma SignalsInPrices(candles: seq<Candle>, d: DerivativeRows, args: Args, i: nat)
    requires i < |candles|
    ensures BaselineSignals(candles, args)[i]
       <==> && args.lookbackBars <= i
            && candles[i].close >= candles[i - args.lookbackBars].close * (1.0 + args.minReturnBps / 10_000.0)
    ensures GatedSignals(candles, d, args)[i]
       <==> BaselineSignals(candles, args)[i] && RegimePass(d, candles[i].ts, args)
  {
    hide RegimePass, Bps;
    if args.lookbackBars <= i {
      BpsInPrices(candles[i].close, candles[i - args.lookbackBars].close, args.minReturnBps);
    }
  }

  /** The bars at which an entry is looked for: those of the range with a full lookback and a full hold. */
  lemma RangeIsExact(candles: seq<Candle>, args: Args, startIndex: nat, endIndex: int, i: nat)
    ensures FirstIndex(args, startIndex) <= i < StopIndex(candles, args, endIndex)
       <==> startIndex <= i <= endIndex && i >= args.lookbackBars && i + args.holdBars < |candles|
  {
  }

  /** Every trade is held for the fixed time; it pays the notional's share of the price change less the round-trip fee,
      with a positive notional a gain iff the price has risen by more than the fee. */
  lemma TradesPayOff(candles: seq<Candle>, d: DerivativeRows, args: Args, entries: seq<nat>, k: nat)
    requires forall j :: 0 <= j < |entries| ==> entries[j] + args.holdBars < |candles|
    requires k < |entries|
    ensures var t, from, to := TradesAt(candles, d, args, entries)[k], candles[entries[k]],
                               candles[entries[k] + args.holdBars];
            && t.entryAt == from.ts && t.exitAt == to.ts
            && (t.regimePassed <==> RegimePass(d, from.ts, args))
            && (t.pnlKrw + args.notionalKrw * args.feeRate) * from.close == args.notionalKrw * (to.close - from.close)
            && (args.notionalKrw > 0.0 ==> (t.pnlKrw > 0.0 <==> to.close > from.close * (1.0 + args.feeRate)))
  {
    hide RegimePass;
    NetResult(args.notionalKrw, args.feeRate, candles[entries[k]].close, candles[entries[k] + args.holdBars].close);
  }

  // ---------------------------------------------------------------------------------------------
  // Neither list looks ahead

  /** Candles that agree through bar `k`, and derivative rows that are the same as known at each of these bars. */
  ghost predicate AgreeThrough(
    a: seq<Candle>, d: DerivativeRows, b: seq<Candle>, e: DerivativeRows, k: int)
  {
    && |a| == |b|
    && forall i :: 0 <= i <= k && i < |a| ==> a[i] == b[i] && SameBy(d, e, a[i].ts)
  }

  /** The entries whose fixed hold is over at or before bar `k`. */
  function Finished(entries: seq<nat>, hold: nat, k: int): (s: seq<nat>)
    ensures forall j :: 0 <= j < |s| ==> s[j] in entries && s[j] + hold <= k
  {
    if entries == [] then []
    else (if entries[0] + hold <= k then [entries[0]] else []) + Finished(entries[1..], hold, k)
  }

  function FixedExits(n: nat, hold: nat): seq<nat> {
    seq(n, e requires 0 <= e => e + hold)
  }

  lemma {:induction false} FinishedIsExited(entries: seq<nat>, n: nat, hold: nat, k: int)
    requires forall j :: 0 <= j < |entries| ==> entries[j] < n
    ensures Finished(entries, hold, k) == Greedy.ExitedThrough(entries, FixedExits(n, hold), k)
  {
    if entries != [] {
      FinishedIsExited(entries[1..], n, hold, k);
    }
  }

  /** Greedy choices over signals that agree through `k` agree through `k`. */
  lemma EntriesAgree(p: seq<bool>, q: seq<bool>, hold: nat, i: nat, stop: nat, next: int, k: int)
    requires |p| == |q| && stop <= |p| && forall c :: 0 <= c <= k && c < |p| ==> p[c] == q[c]
    ensures var s, t := Greedy.Entries(p, hold, i, stop, next), Greedy.Entries(q, hold, i, stop, next);
            Greedy.Through(s, k) == Greedy.Through(t, k) && Finished(s, hold, k) == Finished(t, hold, k)
  {
    hide Greedy.Through, Greedy.ExitedThrough, Finished, Greedy.Chosen, Greedy.Entries;
    var exits := FixedExits(|p|, hold);
    Greedy.FixedExitsAreGreedy(p, exits, hold, i, stop, next);
    Greedy.FixedExitsAreGreedy(q, exits, hold, i, stop, next);
    Greedy.ChoiceIsCausal(p, exits, q, exits, i, stop, next, k);
    FinishedIsExited(Greedy.Chosen(p, exits, i, stop, next), |p|, hold, k);
    FinishedIsExited(Greedy.Chosen(q, exits, i, stop, next), |q|, hold, k);
  }

  lemma SignalsAgree(a: seq<Candle>, d: DerivativeRows, b: seq<Candle>, e: DerivativeRows, args: Args, k: int)
    requires AgreeThrough(a, d, b, e, k)
    ensures forall c :: 0 <= c <= k && c < |a| ==>
              && BaselineSignals(a, args)[c] == BaselineSignals(b, args)[c]
              && GatedSignals(a, d, args)[c] == GatedSignals(b, e, args)[c]
  {
    hide RegimePass, Bps, SameBy;
    forall c | 0 <= c <= k && c < |a|
      ensures BaselineSignals(a, args)[c] == BaselineSignals(b, args)[c]
      ensures GatedSignals(a, d, args)[c] == GatedSignals(b, e, args)[c]
    {
      RegimeIsCausal(d, e, a[c].ts, args);
    }
  }

  lemma FinishedTradesAgree(
    a: seq<Candle>, d: DerivativeRows, b: seq<Candle>, e: DerivativeRows, args: Args, k: int, entries: seq<nat>)
    requires AgreeThrough(a, d, b, e, k)
    requires forall j :: 0 <= j < |entries| ==> entries[j] + args.holdBars < |a| && entries[j] + args.holdBars <= k
    ensures TradesAt(a, d, args, entries) == TradesAt(b, e, args, entries)
  {
    hide RegimePass, SameBy;
    forall j | 0 <= j < |entries| ensures TradeAt(a, d, args, entries[j]) == TradeAt(b, e, args, entries[j]) {
      assert a[entries[j]] == b[entries[j]];
      RegimeIsCausal(d, e, a[entries[j]].ts, args);
    }
  }

  /** What bar `k` knows of one of the two lists: the entries so far and the trades that are over. */
  ghost predicate SameThrough(
    a: seq<Candle>, d: DerivativeRows, s: seq<nat>, b: seq<Candle>, e: DerivativeRows, t: seq<nat>, args: Args, k: int)
    requires |a| == |b|
    requires forall j :: 0 <= j < |s| ==> s[j] + args.holdBars < |a|
    requires forall j :: 0 <= j < |t| ==> t[j] + args.holdBars < |b|
  {
    && Greedy.Through(s, k) == Greedy.Through(t, k)
    && Finished(s, args.holdBars, k) == Finished(t, args.holdBars, k)
    && TradesAt(a, d, args, Finished(s, args.holdBars, k)) == TradesAt(b, e, args, Finished(t, args.holdBars, k))
  }

  /** Both lists are causal: candles and derivative rows that cannot be told apart through bar `k` give the same
      entries and the same finished trades through `k`, with the gate and without it. */
  lemma SimulationIsCausal(
    a: seq<Candle>, d: DerivativeRows, b: seq<Candle>, e: DerivativeRows, args: Args,
    startIndex: nat, endIndex: int, k: int)
    requires AgreeThrough(a, d, b, e, k)
    ensures SameThrough(a, d, BaselineEntries(a, args, startIndex, endIndex),
                        b, e, BaselineEntries(b, args, startIndex, endIndex), args, k)
    ensures SameThrough(a, d, GatedEntries(a, d, args, startIndex, endIndex),
                        b, e, GatedEntries(b, e, args, startIndex, endIndex), args, k)
  {
    hide Greedy.Through, Finished, TradesAt, AgreeThrough, Momentum, Gated, Greedy.Entries;
    SignalsAgree(a, d, b, e, args, k);
    AgreeLength(a, d, b, e, k);
    var first, stop := FirstIndex(args, startIndex), StopIndex(a, args, endIndex);
    EntriesAgree(BaselineSignals(a, args), BaselineSignals(b, args), args.holdBars, first, stop, startIndex, k);
    EntriesAgree(GatedSignals(a, d, args), GatedSignals(b, e, args), args.holdBars, first, stop, startIndex, k);
    var s, t := BaselineEntries(a, args, startIndex, endIndex), GatedEntries(a, d, args, startIndex, endIndex);
    FinishedTradesAgree(a, d, b, e, args, k, Finished(s, args.holdBars, k));
    FinishedTradesAgree(a, d, b, e, args, k, Finished(t, args.holdBars, k));
  }

  lemma AgreeLength(a: seq<Candle>, d: DerivativeRows, b: seq<Candle>, e: DerivativeRows, k: int)
    requires AgreeThrough(a, d, b, e, k)
    ensures |a| == |b|
  {
  }
}
