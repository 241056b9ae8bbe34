/** The candle signal shared by the Bithumb momentum grid and the candidate benchmark: a lookback return
    test and an optional cap on a 24-bar risk measure. */
module CandleSignals {
  import opened Basics

  datatype Candle = Candle(ts: int, close: Pos, high: real, low: real)

  datatype SignalMode = Momentum | Reversal

  datatype RiskFilter = NoFilter | RealizedVolatility24 | Range24

  /** `root` stands for the square root used by the volatility measure. */
  datatype SignalConfig = SignalConfig(
    lookback: nat,
    minReturnBps: real,
    mode: SignalMode,
    riskFilter: RiskFilter,
    riskThreshold: Option<real>,
    root: real -> real)

  function SquaredReturn(candles: seq<Candle>, cursor: nat): real
    requires 1 <= cursor < |candles|
  {
    Bps(candles[cursor].close, candles[cursor - 1].close) * Bps(candles[cursor].close, candles[cursor - 1].close)
  }

  /** The squared returns of the bars in `[from, to)`. */
  function SumSquares(candles: seq<Candle>, from: nat, to: nat): real
    requires 1 <= from <= to <= |candles|
  {
    if from == to then 0.0 else SumSquares(candles, from, to - 1) + SquaredReturn(candles, to - 1)
  }

  function HighestHigh(candles: seq<Candle>, from: nat, to: nat): real
    requires from < to <= |candles|
  {
    if from + 1 == to then candles[from].high else Max(HighestHigh(candles, from, to - 1), candles[to - 1].high)
  }

  function LowestLow(candles: seq<Candle>, from: nat, to: nat): real
    requires from < to <= |candles|
  {
    if from + 1 == to then candles[from].low else Min(LowestLow(candles, from, to - 1), candles[to - 1].low)
  }

  /** The risk measure over the 24 bars ending at `index`; none before bar 24 or without a filter. */
  function RiskValue(candles: seq<Candle>, index: nat, filter: RiskFilter, root: real -> real): Option<real>
    requires index < |candles|
  {
    if filter.NoFilter? || index < 24 then None
    else if filter.RealizedVolatility24? then Some(root(SumSquares(candles, index - 23, index + 1)))
    else Some(Bps(HighestHigh(candles, index - 23, index + 1), LowestLow(candles, index - 23, index + 1)))
  }

  predicate PassesSignal(candles: seq<Candle>, index: nat, cfg: SignalConfig)
    requires index < |candles|
  {
    && cfg.lookback <= index
    && var ret := Bps(candles[index].close, candles[index - cfg.lookback].close);
    && (cfg.mode.Momentum? ==> ret >= cfg.minReturnBps)
    && (cfg.mode.Reversal? ==> ret <= -cfg.minReturnBps)
    && (!cfg.riskFilter.NoFilter? ==>
          var risk := RiskValue(candles, index, cfg.riskFilter, cfg.root);
          risk.Some? && cfg.riskThreshold.Some? && risk.value <= cfg.riskThreshold.value)
  }

  function Signals(candles: seq<Candle>, cfg: SignalConfig): seq<bool> {
    seq(|candles|, i requires 0 <= i < |candles| => PassesSignal(candles, i, cfg))
  }

  /** The risk values a threshold is taken from: bars 24 up to the split. */
  function RiskSample(candles: seq<Candle>, split: nat, filter: RiskFilter, root: real -> real): seq<real>
    requires split <= |candles|
  {
    if split <= 24 then []
    else
      var value := RiskValue(candles, split - 1, filter, root);
      RiskSample(candles, split - 1, filter, root) + (if value.Some? then [value.value] else [])
  }

  /** The accumulating loop of the volatility measure. */
  method AccumulateSquares(candles: seq<Candle>, index: nat) returns (sumSquares: real)
    requires 24 <= index < |candles|
    ensures sumSquares == SumSquares(candles, index - 23, index + 1)
  {
    sumSquares := 0.0;
    var cursor := index - 23;
    while cursor <= index
      invariant index - 23 <= cursor <= index + 1
      invariant sumSquares == SumSquares(candles, index - 23, cursor)
    {
      var ret := Bps(candles[cursor].close, candles[cursor - 1].close);
      sumSquares := sumSquares + ret * ret;
      cursor := cursor + 1;
    }
  }

  method ComputeRisk(candles: seq<Candle>, index: nat, filter: RiskFilter, root: real -> real)
    returns (value: Option<real>)
    requires index < |candles|
    ensures value == RiskValue(candles, index, filter, root)
  {
    value := None;
    if !filter.NoFilter? && index >= 24 {
      if filter.RealizedVolatility24? {
        var sumSquares := AccumulateSquares(candles, index);
        value := Some(root(sumSquares));
      } else {
        value := Some(Bps(HighestHigh(candles, index - 23, index + 1), LowestLow(candles, index - 23, index + 1)));
      }
    }
  }

  /** `passesSignal`, test by test. */
  method TestSignal(candles: seq<Candle>, index: nat, cfg: SignalConfig) returns (passes: bool)
    requires index < |candles|
    ensures passes == PassesSignal(candles, index, cfg)
  {
    hide RiskValue, Bps;
    if index < cfg.lookback {
      return false;
    }
    var ret := Bps(candles[index].close, candles[index - cfg.lookback].close);
    if (cfg.mode.Momentum? && ret < cfg.minReturnBps) || (cfg.mode.Reversal? && ret > -cfg.minReturnBps) {
      return false;
    }
    if !cfg.riskFilter.NoFilter? {
      var value := ComputeRisk(candles, index, cfg.riskFilter, cfg.root);
      if value.None? || cfg.riskThreshold.None? || value.value > cfg.riskThreshold.value {
        return false;
      }
    }
    passes := true;
  }

  // ---------------------------------------------------------------------------------------------
  // What a signal says in prices

  ghost predicate IsHighest(candles: seq<Candle>, from: nat, to: nat, high: real)
    requires to <= |candles|
  {
    && (forall i :: from <= i < to ==> candles[i].high <= high)
    && exists i :: from <= i < to && candles[i].high == high
  }

  ghost predicate IsLowest(candles: seq<Candle>, from: nat, to: nat, low: real)
    requires to <= |candles|
  {
    && (forall i :: from <= i < to ==> low <= candles[i].low)
    && exists i :: from <= i < to && candles[i].low == low
  }

  lemma {:induction false} WindowExtremes(candles: seq<Candle>, from: nat, to: nat)
    requires from < to <= |candles|
    ensures IsHighest(candles, from, to, HighestHigh(candles, from, to))
    ensures IsLowest(candles, from, to, LowestLow(candles, from, to))
  {
    if from + 1 < to {
      WindowExtremes(candles, from, to - 1);
    }
  }

  /** The close has moved by the minimum, up for momentum and down for reversal, since the lookback. */
  predicate Moves(candles: seq<Candle>, index: nat, cfg: SignalConfig)
    requires index < |candles|
  {
    && index >= cfg.lookback
    && var now, before := candles[index].close, candles[index - cfg.lookback].close;
       match cfg.mode
       case Momentum => now >= before * (1.0 + cfg.minReturnBps / 10_000.0)
       case Reversal => now <= before * (1.0 - cfg.minReturnBps / 10_000.0)
  }

  /** The sum of the squared returns of `index` and the `n` bars before it. */
  function SquaresBack(candles: seq<Candle>, index: nat, n: nat): real
    requires n < index < |candles|
  {
    var r := (candles[index - n].close / candles[index - n - 1].close - 1.0) * 10_000.0;
    r * r + if n == 0 then 0.0 else SquaresBack(candles, index, n - 1)
  }

  /** The highest high is at most so many basis points above the lowest low; against a low that is not positive the
      range counts as nothing. */
  ghost predicate Narrow(candles: seq<Candle>, from: nat, to: nat, bps: real)
    requires to <= |candles|
  {
    exists high, low ::
      && IsHighest(candles, from, to, high) && IsLowest(candles, from, to, low)
      && (if low > 0.0 then high <= low * (1.0 + bps / 10_000.0) else bps >= 0.0)
  }

  /** The range of the last 24 bars is within the threshold; a threshold and 24 bars before the first are needed. */
  ghost predicate Calm(candles: seq<Candle>, index: nat, cfg: SignalConfig)
    requires index < |candles|
  {
    && index >= 24 && cfg.riskThreshold.Some?
    && match cfg.riskFilter
       case NoFilter => true
       case RealizedVolatility24 => cfg.root(SquaresBack(candles, index, 23)) <= cfg.riskThreshold.value
       case Range24 => Narrow(candles, index - 23, index + 1, cfg.riskThreshold.value)
  }

  lemma {:induction false} SquaresAgree(candles: seq<Candle>, index: nat, from: nat, n: nat)
    requires 1 <= from && from == index - n && index < |candles|
    ensures SquaresBack(candles, index, n) == SumSquares(candles, from, index + 1)
    decreases n
  {
    SquaresSplit(candles, from, index + 1);
    if n > 0 {
      SquaresAgree(candles, index, from + 1, n - 1);
    } else {
      assert SumSquares(candles, from + 1, index + 1) == 0.0;
    }
  }

  lemma {:induction false} SquaresSplit(candles: seq<Candle>, from: nat, to: nat)
    requires 1 <= from < to <= |candles|
    ensures SumSquares(candles, from, to) == SquaredReturn(candles, from) + SumSquares(candles, from + 1, to)
  {
    hide SquaredReturn;
    if from + 1 < to {
      SquaresSplit(candles, from, to - 1);
    } else {
      assert SumSquares(candles, from, from) == 0.0 && SumSquares(candles, to, to) == 0.0;
    }
  }

  /** A bar passes iff the close has moved enough and, where a risk filter is set, the last 24 bars are calm. */
  lemma SignalInPrices(candles: seq<Candle>, index: nat, cfg: SignalConfig)
    requires index < |candles|
    ensures PassesSignal(candles, index, cfg)
       <==> Moves(candles, index, cfg) && (cfg.riskFilter != NoFilter ==> Calm(candles, index, cfg))
  {
    hide Bps, RiskValue, Calm;
    if index >= cfg.lookback {
      var now, before := candles[index].close, candles[index - cfg.lookback].close;
      BpsInPrices(now, before, cfg.minReturnBps);
      BpsInPrices(now, before, -cfg.minReturnBps);
    }
    if cfg.riskFilter != NoFilter {
      CalmIffLowRisk(candles, index, cfg);
    }
  }

  lemma CalmIffLowRisk(candles: seq<Candle>, index: nat, cfg: SignalConfig)
    requires index < |candles| && cfg.riskFilter != NoFilter
    ensures Calm(candles, index, cfg)
       <==> && RiskValue(candles, index, cfg.riskFilter, cfg.root).Some? && cfg.riskThreshold.Some?
            && RiskValue(candles, index, cfg.riskFilter, cfg.root).value <= cfg.riskThreshold.value
  {
    hide IsHighest, IsLowest, HighestHigh, LowestLow, Bps;
    if index >= 24 && cfg.riskThreshold.Some? {
      if cfg.riskFilter.RealizedVolatility24? {
        SquaresAgree(candles, index, index - 23, 23);
      } else {
        var from, to := index - 23, index + 1;
        var high, low := HighestHigh(candles, from, to), LowestLow(candles, from, to);
        WindowExtremes(candles, from, to);
        forall h, l | IsHighest(candles, from, to, h) && IsLowest(candles, from, to, l) ensures h == high && l == low {
          ExtremesUnique(candles, from, to, h, high, l, low);
        }
        RangeInPrices(high, low, cfg.riskThreshold.value);
      }
    }
  }

  lemma RangeInPrices(high: real, low: real, bps: real)
    ensures Bps(high, low) <= bps <==> if low > 0.0 then high <= low * (1.0 + bps / 10_000.0) else bps >= 0.0
  {
    if low > 0.0 {
      BpsInPrices(high, low, bps);
    }
  }

  lemma ExtremesUnique(candles: seq<Candle>, from: nat, to: nat, h: real, high: real, l: real, low: real)
    requires to <= |candles|
    requires IsHighest(candles, from, to, h) && IsHighest(candles, from, to, high)
    requires IsLowest(candles, from, to, l) && IsLowest(candles, from, to, low)
    ensures h == high && l == low
  {
  }

  /** The sample a threshold is taken from has one risk value per bar from bar 24 up to the split. */
  lemma {:induction false} SampleAt(candles: seq<Candle>, split: nat, filter: RiskFilter, root: real -> real)
    requires 24 <= split <= |candles| && filter != NoFilter
    ensures |RiskSample(candles, split, filter, root)| == split - 24
    ensures forall j :: 0 <= j < split - 24 ==>
              RiskValue(candles, 24 + j, filter, root) == Some(RiskSample(candles, split, filter, root)[j])
  {
    hide Bps, HighestHigh, LowestLow, SumSquares;
    if split > 24 {
      SampleAt(candles, split - 1, filter, root);
    }
  }

  // ---------------------------------------------------------------------------------------------
  // Nothing looks ahead

  ghost predicate AgreeThrough(a: seq<Candle>, b: seq<Candle>, k: int) {
    |a| == |b| && forall i :: 0 <= i <= k && i < |a| ==> a[i] == b[i]
  }

  lemma {:induction false} WindowsAgree(a: seq<Candle>, b: seq<Candle>, from: nat, to: nat)
    requires AgreeThrough(a, b, to - 1) && 1 <= from < to <= |a|
    ensures SumSquares(a, from, to) == SumSquares(b, from, to)
    ensures HighestHigh(a, from, to) == HighestHigh(b, from, to)
    ensures LowestLow(a, from, to) == LowestLow(b, from, to)
  {
    if from + 1 < to {
      WindowsAgree(a, b, from, to - 1);
    } else {
      assert SumSquares(a, from, from) == SumSquares(b, from, from);
    }
  }

  lemma RiskIsCausal(a: seq<Candle>, b: seq<Candle>, index: nat, filter: RiskFilter, root: real -> real)
    requires AgreeThrough(a, b, index) && index < |a|
    ensures RiskValue(a, index, filter, root) == RiskValue(b, index, filter, root)
  {
    if index >= 24 {
      WindowsAgree(a, b, index - 23, index + 1);
    }
  }

  lemma SignalIsCausal(a: seq<Candle>, b: seq<Candle>, index: nat, cfg: SignalConfig)
    requires AgreeThrough(a, b, index) && index < |a|
    ensures PassesSignal(a, index, cfg) == PassesSignal(b, index, cfg)
  {
    RiskIsCausal(a, b, index, cfg.riskFilter, cfg.root);
  }

  /** The sample that the grid's risk thresholds are quantiles of depends only on candles before the split. */
  lemma {:induction false} ThresholdsAreCausal(
    a: seq<Candle>, b: seq<Candle>, split: nat, filter: RiskFilter, root: real -> real)
    requires AgreeThrough(a, b, split - 1) && split <= |a|
    ensures RiskSample(a, split, filter, root) == RiskSample(b, split, filter, root)
  {
    if split > 24 {
      ThresholdsAreCausal(a, b, split - 1, filter, root);
      RiskIsCausal(a, b, split - 1, filter, root);
    }
  }
}
