/** The momentum grid takes its risk thresholds from the candles before the split and hands them to every
    walk-forward fold: which folds see only their own past, and one that does not. */
module ThresholdFolds {
  import opened Basics
  import opened CandleSignals
  import opened BenchmarkSimulator
  import opened IndexFolds
  import opened FoldExamples
  import Greedy

  /** The configuration with the threshold that `pick`, a quantile, takes from the sample before the split. */
  function WithThreshold(candles: seq<Candle>, args: Args, split: nat, pick: seq<real> -> Option<real>): Args
    requires split <= |candles|
  {
    args.(signal := args.signal.(
      riskThreshold := pick(RiskSample(candles, split, args.signal.riskFilter, args.signal.root))))
  }

  function FoldEntries(candles: seq<Candle>, args: Args, f: nat): seq<nat> {
    SimulatedEntries(candles, args, FoldStart(candles, f), FoldStart(candles, f + 1) - 1)
  }

  /** Entries over a range depend on the signals in it alone, under a fixed hold. */
  lemma {:induction false} EntriesAgree(p: seq<bool>, q: seq<bool>, hold: nat, i: nat, stop: nat, next: int)
    requires stop <= |p| && stop <= |q| && forall c :: 0 <= c < stop ==> p[c] == q[c]
    ensures Greedy.Entries(p, hold, i, stop, next) == Greedy.Entries(q, hold, i, stop, next)
    decreases stop - i
  {
    if i < stop {
      EntriesAgree(p, q, hold, i + 1, stop, i + hold);
      EntriesAgree(p, q, hold, i + 1, stop, next);
    }
  }

  /** With one configuration the entries of a fold depend only on the candles through its end. */
  lemma FoldEntriesAgree(a: seq<Candle>, b: seq<Candle>, args: Args, f: nat)
    requires args.protect.None? && AgreeThrough(a, b, FoldStart(a, f + 1) - 1)
    ensures FoldEntries(a, args, f) == FoldEntries(b, args, f)
  {
    hide PassesSignal, Greedy.Entries, Greedy.Chosen, FoldStart;
    assert FoldStart(a, f) == FoldStart(b, f) && FoldStart(a, f + 1) == FoldStart(b, f + 1) by {
      SameStarts(a, b, f);
      SameStarts(a, b, f + 1);
    }
    var start, end := FoldStart(a, f), FoldStart(a, f + 1) - 1;
    var i, stop := FirstIndex(args, start), StopIndex(a, args, end);
    FixedHoldIsGreedy(a, args, i, stop, start);
    FixedHoldIsGreedy(b, args, i, stop, start);
    forall c | 0 <= c < stop ensures Signals(a, args.signal)[c] == Signals(b, args.signal)[c] {
      SignalIsCausal(a, b, c, args.signal);
    }
    EntriesAgree(Signals(a, args.signal), Signals(b, args.signal), args.holdBars, i, stop, start);
  }

  lemma SameStarts(a: seq<Candle>, b: seq<Candle>, f: nat)
    requires |a| == |b|
    ensures FoldStart(a, f) == FoldStart(b, f)
  {
  }

  /** A fold sees only its own past if no risk filter is set, or if the split is not after its end: series that agree
      through that end give the same threshold and the same entries. */
  lemma FoldIsCausal(
    a: seq<Candle>, b: seq<Candle>, args: Args, split: nat, pick: seq<real> -> Option<real>, f: nat)
    requires args.protect.None? && split <= |a| && AgreeThrough(a, b, FoldStart(a, f + 1) - 1)
    requires args.signal.riskFilter.NoFilter? || split <= FoldStart(a, f + 1)
    ensures FoldEntries(a, WithThreshold(a, args, split, pick), f)
         == FoldEntries(b, WithThreshold(b, args, split, pick), f)
  {
    hide FoldEntries, FoldStart, RiskSample;
    if args.signal.riskFilter.NoFilter? {
      NoSample(a, split, args.signal.root);
      NoSample(b, split, args.signal.root);
    } else {
      ThresholdsAreCausal(a, b, split, args.signal.riskFilter, args.signal.root);
    }
    FoldEntriesAgree(a, b, WithThreshold(a, args, split, pick), f);
  }

  lemma {:induction false} NoSample(candles: seq<Candle>, split: nat, root: real -> real)
    requires split <= |candles|
    ensures RiskSample(candles, split, NoFilter, root) == []
  {
    if split > 24 {
      NoSample(candles, split - 1, root);
    }
  }

  // ---------------------------------------------------------------------------------------------
  // A fold before the split that sees its future

  function CountLess(values: seq<real>, v: real): nat {
    if values == [] then 0 else CountLess(values[..|values| - 1], v) + (if values[|values| - 1] < v then 1 else 0)
  }

  function CountAtMost(values: seq<real>, v: real): nat {
    if values == [] then 0 else CountAtMost(values[..|values| - 1], v) + (if values[|values| - 1] <= v then 1 else 0)
  }

  /** `v` is at index `k` of the sorted values. */
  ghost predicate IsOrderStatistic(values: seq<real>, k: nat, v: real) {
    v in values && CountLess(values, v) <= k < CountAtMost(values, v)
  }

  lemma {:induction false} FewAtMost(values: seq<real>, v: real, m: nat)
    requires forall j :: m <= j < |values| ==> v < values[j]
    ensures CountAtMost(values, v) <= m
  {
    if values != [] {
      var n := |values| - 1;
      FewAtMost(values[..n], v, if n < m then n else m);
    }
  }

  lemma {:induction false} ManyLess(values: seq<real>, v: real, m: nat)
    requires forall j :: m <= j < |values| ==> values[j] < v
    ensures CountLess(values, v) >= |values| - m
  {
    if |values| > m {
      ManyLess(values[..|values| - 1], v, m);
    }
  }

  /** Closes of 1 with a jump to 2 at bar 50; after bar 99 the market either swings between 1 and 2 or stands still. */
  function Swinging(i: nat): Pos {
    if i == 50 || (i >= 100 && i % 2 == 0) then 2.0 else 1.0
  }

  function Standing(i: nat): Pos {
    if i == 50 then 2.0 else 1.0
  }

  function Ranged(threshold: real, root: real -> real): Args {
    Args(SignalConfig(12, 25.0, Momentum, Range24, Some(threshold), root), 8, 1.0, 0.0008, None)
  }

  ghost predicate OneOrTwo(candles: seq<Candle>) {
    forall i :: 0 <= i < |candles| ==>
      candles[i].high == candles[i].low == candles[i].close && (candles[i].close == 1.0 || candles[i].close == 2.0)
  }

  lemma {:induction false} OneOrTwoExtremes(candles: seq<Candle>, from: nat, to: nat)
    requires OneOrTwo(candles) && from < to <= |candles|
    ensures HighestHigh(candles, from, to) == if exists i :: from <= i < to && candles[i].close == 2.0 then 2.0 else 1.0
    ensures LowestLow(candles, from, to) == if exists i :: from <= i < to && candles[i].close == 1.0 then 1.0 else 2.0
  {
    if from + 1 < to {
      OneOrTwoExtremes(candles, from, to - 1);
    }
  }

  lemma RangeAt(candles: seq<Candle>, bar: nat, root: real -> real)
    requires OneOrTwo(candles) && 24 <= bar < |candles|
    requires exists i :: bar - 23 <= i <= bar && candles[i].close == 1.0
    ensures RiskValue(candles, bar, Range24, root)
         == Some(if exists i :: bar - 23 <= i <= bar && candles[i].close == 2.0 then 10_000.0 else 0.0)
  {
    OneOrTwoExtremes(candles, bar - 23, bar + 1);
    assert 2.0 / 1.0 == 2.0;
  }

  lemma SwingingRange(bar: nat, root: real -> real)
    requires bar == 50 || 101 <= bar < 500
    ensures RiskValue(Series(500, Swinging), bar, Range24, root) == Some(10_000.0)
  {
    hide RiskValue;
    var candles := Series(500, Swinging);
    var even, odd := if bar % 2 == 0 then bar else bar - 1, if bar % 2 == 0 then bar - 1 else bar;
    assert candles[even].close == 2.0 && candles[odd].close == 1.0;
    RangeAt(candles, bar, root);
  }

  lemma StandingRange(bar: nat, root: real -> real)
    requires bar == 50 || 74 <= bar < 500
    ensures RiskValue(Series(500, Standing), bar, Range24, root) == Some(if bar == 50 then 10_000.0 else 0.0)
  {
    hide RiskValue;
    var candles := Series(500, Standing);
    assert candles[bar - 1].close == 1.0;
    if bar == 50 {
      assert candles[50].close == 2.0;
    }
    RangeAt(candles, bar, root);
  }

  /** The 70% quantile of the swinging series is the full range, that of the standing one is nothing. */
  lemma QuantilesDiffer(swinging: real, standing: real, root: real -> real)
    requires IsOrderStatistic(RiskSample(Series(500, Swinging), 350, Range24, root), 227, swinging)
    requires IsOrderStatistic(RiskSample(Series(500, Standing), 350, Range24, root), 227, standing)
    ensures swinging >= 10_000.0 && standing <= 0.0
  {
    hide RiskValue, RiskSample, CountLess, CountAtMost;
    SampleAt(Series(500, Swinging), 350, Range24, root);
    SampleAt(Series(500, Standing), 350, Range24, root);
    var a := RiskSample(Series(500, Swinging), 350, Range24, root);
    var b := RiskSample(Series(500, Standing), 350, Range24, root);
    if swinging < 10_000.0 {
      forall j | 77 <= j < |a| ensures swinging < a[j] {
        SwingingRange(24 + j, root);
      }
      FewAtMost(a, swinging, 77);
    }
    if standing > 0.0 {
      forall j | 50 <= j < |b| ensures b[j] < standing {
        StandingRange(24 + j, root);
      }
      ManyLess(b, standing, 50);
    }
  }

  /** In the first fold only bar 50 rises; it passes iff the threshold admits its range. */
  lemma OnlyTheJump(candles: seq<Candle>, threshold: real, root: real -> real, c: nat)
    requires |candles| == 500 && 24 <= c < 100
    requires forall i :: 0 <= i < 100 ==> candles[i].close == if i == 50 then 2.0 else 1.0
    requires RiskValue(candles, 50, Range24, root) == Some(10_000.0)
    ensures PassesSignal(candles, c, Ranged(threshold, root).signal) <==> c == 50 && 10_000.0 <= threshold
  {
    hide RiskValue;
    assert 1.0 / 1.0 == 1.0 && 2.0 / 1.0 == 2.0 && 1.0 / 2.0 == 0.5;
  }

  lemma JumpEntries(candles: seq<Candle>, threshold: real, root: real -> real)
    requires |candles| == 500
    requires forall i :: 0 <= i < 100 ==> candles[i].close == if i == 50 then 2.0 else 1.0
    requires RiskValue(candles, 50, Range24, root) == Some(10_000.0)
    ensures FoldEntries(candles, Ranged(threshold, root), 0) == if 10_000.0 <= threshold then [50] else []
  {
    hide RiskValue, PassesSignal, Greedy.Chosen, Greedy.Entries;
    var args := Ranged(threshold, root);
    var pass, exits := Signals(candles, args.signal), Exits(candles, args);
    forall c | 24 <= c < 100 ensures pass[c] <==> c == 50 && 10_000.0 <= threshold {
      OnlyTheJump(candles, threshold, root, c);
    }
    if 10_000.0 <= threshold {
      Greedy.IdleUntil(pass, exits, 24, 50, 100, 0);
      Greedy.TakeThenWait(pass, exits, 50, 100, 0);
      Greedy.IdleUntil(pass, exits, 58, 100, 100, 58);
      NoneLeft(pass, exits, 100, 58);
    } else {
      Greedy.IdleUntil(pass, exits, 24, 100, 100, 0);
      NoneLeft(pass, exits, 100, 0);
    }
  }

  /** Two series of 500 candles that agree through the first fold: with the range filter at the 70% quantile of the
      candles before bar 350, the fold trades at bar 50 in one and not at all in the other. */
  lemma FirstFoldLooksAhead(swinging: real, standing: real, root: real -> real)
    requires IsOrderStatistic(RiskSample(Series(500, Swinging), 350, Range24, root), 227, swinging)
    requires IsOrderStatistic(RiskSample(Series(500, Standing), 350, Range24, root), 227, standing)
    ensures AgreeThrough(Series(500, Swinging), Series(500, Standing), FoldStart(Series(500, Swinging), 1) - 1)
    ensures FoldEntries(Series(500, Swinging), Ranged(swinging, root), 0) == [50]
    ensures FoldEntries(Series(500, Standing), Ranged(standing, root), 0) == []
  {
    hide FoldEntries, RiskSample, RiskValue;
    QuantilesDiffer(swinging, standing, root);
    SwingingRange(50, root);
    StandingRange(50, root);
    JumpEntries(Series(500, Swinging), swinging, root);
    JumpEntries(Series(500, Standing), standing, root);
  }
}
