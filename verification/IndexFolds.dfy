/** Walk-forward folds by index: the benchmark and momentum simulators run again on each fifth of the candles,
    forgetting at every boundary which trade is still open. */
module IndexFolds {
  import opened CandleSignals
  import opened BenchmarkSimulator
  import Greedy

  const WALK_FORWARD_FOLDS := 5

  function FoldStart(candles: seq<Candle>, f: nat): nat {
    Greedy.FoldStart(|candles|, WALK_FORWARD_FOLDS, f)
  }

  /** The trades of fold `f`, simulated on its own range of candles. */
  function FoldTrades(candles: seq<Candle>, args: Args, f: nat): seq<Trade> {
    Simulated(candles, args, FoldStart(candles, f), FoldStart(candles, f + 1) - 1)
  }

  /** The trades of the first `f` folds, one fold after another. */
  function JoinedTrades(candles: seq<Candle>, args: Args, f: nat): seq<Trade> {
    if f == 0 then [] else JoinedTrades(candles, args, f - 1) + FoldTrades(candles, args, f - 1)
  }

  function WholeTrades(candles: seq<Candle>, args: Args): seq<Trade> {
    Simulated(candles, args, 0, |candles| - 1)
  }

  // ---------------------------------------------------------------------------------------------
  // The simulator on a range, as the plain loop

  /** The bars of the whole period at which a trade can be opened are those in `[First, Limit)`. */
  function First(args: Args): nat {
    FirstIndex(args, 0)
  }

  function Within(candles: seq<Candle>, args: Args, x: int): int {
    Greedy.Clamp(x, First(args), Limit(candles, args))
  }

  lemma RangeEntries(candles: seq<Candle>, args: Args, startIndex: nat, endIndex: int)
    requires startIndex <= endIndex + 1 <= |candles| && First(args) <= Limit(candles, args)
    ensures var from, to := Within(candles, args, startIndex), Within(candles, args, endIndex + 1);
            && 0 <= from <= to <= Limit(candles, args)
            && SimulatedEntries(candles, args, startIndex, endIndex)
            == Greedy.Chosen(Signals(candles, args.signal), Exits(candles, args), from, to, from)
  {
    hide PassesSignal, ExitAt;
    var i, stop := FirstIndex(args, startIndex), StopIndex(candles, args, endIndex);
    if i < stop {
      Greedy.BlockedLonger(Signals(candles, args.signal), Exits(candles, args), i, stop, startIndex, i);
    }
  }

  lemma NothingToSimulate(candles: seq<Candle>, args: Args, startIndex: nat, endIndex: int)
    requires Limit(candles, args) < First(args)
    ensures Simulated(candles, args, startIndex, endIndex) == []
  {
    var entries := SimulatedEntries(candles, args, startIndex, endIndex);
    assert entries == [];
  }

  lemma {:induction false} TradesAtConcat(candles: seq<Candle>, args: Args, s: seq<nat>, t: seq<nat>)
    requires forall k :: 0 <= k < |s| ==> s[k] < Limit(candles, args)
    requires forall k :: 0 <= k < |t| ==> t[k] < Limit(candles, args)
    ensures TradesAt(candles, args, s + t) == TradesAt(candles, args, s) + TradesAt(candles, args, t)
  {
    hide TradeAt;
    if s == [] {
      assert s + t == t;
    } else {
      TradesAtConcat(candles, args, s[1..], t);
      assert (s + t)[1..] == s[1..] + t;
    }
  }

  /** Trades name their entries, so equal trade lists are equal entry lists. */
  lemma TradesAtInjective(candles: seq<Candle>, args: Args, s: seq<nat>, t: seq<nat>)
    requires forall k :: 0 <= k < |s| ==> s[k] < Limit(candles, args)
    requires forall k :: 0 <= k < |t| ==> t[k] < Limit(candles, args)
    ensures TradesAt(candles, args, s) == TradesAt(candles, args, t) <==> s == t
  {
    hide TradesAt, TradeAt;
    TradesAtEntries(candles, args, s);
    TradesAtEntries(candles, args, t);
    if TradesAt(candles, args, s) == TradesAt(candles, args, t) {
      forall k | 0 <= k < |s| ensures s[k] == t[k] {
        assert TradesAt(candles, args, s)[k].entry == s[k];
      }
    }
  }

  // ---------------------------------------------------------------------------------------------
  // The exact condition

  /** The fold bounds, within the bars at which a trade can be opened. */
  function Bounds(candles: seq<Candle>, args: Args): (bounds: seq<nat>)
    requires First(args) <= Limit(candles, args)
    ensures |bounds| == WALK_FORWARD_FOLDS + 1
    ensures forall f :: 0 <= f < |bounds| ==> bounds[f] == Within(candles, args, FoldStart(candles, f))
  {
    seq(WALK_FORWARD_FOLDS + 1, f requires 0 <= f => Within(candles, args, FoldStart(candles, f)))
  }

  lemma {:induction false} FoldStartsOrdered(candles: seq<Candle>, f: nat, g: nat)
    requires f <= g
    ensures FoldStart(candles, f) <= FoldStart(candles, g)
  {
    if f < g {
      FoldStartsOrdered(candles, f, g - 1);
      Greedy.FoldStartsIncrease(|candles|, WALK_FORWARD_FOLDS, g - 1);
    }
  }

  lemma BoundsAscend(candles: seq<Candle>, args: Args)
    requires First(args) <= Limit(candles, args)
    ensures Greedy.Ascending(Bounds(candles, args))
    ensures Bounds(candles, args)[0] == First(args)
    ensures Bounds(candles, args)[WALK_FORWARD_FOLDS] == Limit(candles, args)
    ensures forall f :: 0 <= f <= WALK_FORWARD_FOLDS ==> Bounds(candles, args)[f] <= Limit(candles, args)
  {
    hide FoldStart;
    var bounds := Bounds(candles, args);
    forall f, g | 0 <= f <= g < |bounds| ensures bounds[f] <= bounds[g] {
      FoldStartsOrdered(candles, f, g);
    }
    FoldEnds(candles);
  }

  lemma FoldEnds(candles: seq<Candle>)
    ensures FoldStart(candles, 0) == 0 && FoldStart(candles, WALK_FORWARD_FOLDS) == |candles|
  {
    Greedy.FoldStartsIncrease(|candles|, WALK_FORWARD_FOLDS, 0);
  }

  /** The trades of the first `f` folds are those of the plain loop started over at each bound. */
  lemma {:induction false} JoinedIsFolded(candles: seq<Candle>, args: Args, f: nat)
    requires First(args) <= Limit(candles, args) && f <= WALK_FORWARD_FOLDS
    ensures Greedy.Ascending(Bounds(candles, args)) && Bounds(candles, args)[f] <= Limit(candles, args)
    ensures JoinedTrades(candles, args, f)
         == TradesAt(candles, args, Greedy.Folded(Signals(candles, args.signal), Exits(candles, args),
                                                  Bounds(candles, args), f))
  {
    hide FoldStart, Greedy.Ascending, Greedy.Chosen, TradeAt, SimulatedEntries;
    BoundsAscend(candles, args);
    var pass, exits, bounds := Signals(candles, args.signal), Exits(candles, args), Bounds(candles, args);
    Greedy.FoldedStep(pass, exits, bounds, f);
    if f > 0 {
      JoinedIsFolded(candles, args, f - 1);
      FoldRange(candles, args, f - 1);
      TradesAtConcat(candles, args, Greedy.Folded(pass, exits, bounds, f - 1),
                     Greedy.Chosen(pass, exits, bounds[f - 1], bounds[f], bounds[f - 1]));
    }
  }

  lemma FoldRange(candles: seq<Candle>, args: Args, f: nat)
    requires First(args) <= Limit(candles, args) && f < WALK_FORWARD_FOLDS
    ensures var bounds := Bounds(candles, args);
            && bounds[f] <= bounds[f + 1] <= Limit(candles, args)
            && FoldTrades(candles, args, f)
            == TradesAt(candles, args, Greedy.Chosen(Signals(candles, args.signal), Exits(candles, args),
                                                     bounds[f], bounds[f + 1], bounds[f]))
  {
    hide FoldStart, Greedy.Chosen, TradesAt;
    BoundsAscend(candles, args);
    FoldStartsOrdered(candles, f, f + 1);
    FoldStartsOrdered(candles, f + 1, WALK_FORWARD_FOLDS);
    FoldEnds(candles);
    RangeEntries(candles, args, FoldStart(candles, f), FoldStart(candles, f + 1) - 1);
  }

  /** No bar of fold `f` that could be entered passes while the last trade of the folds before is open. */
  ghost predicate BoundaryIsFree(candles: seq<Candle>, args: Args, f: nat)
    requires f < WALK_FORWARD_FOLDS
  {
    var before := JoinedTrades(candles, args, f);
    before != [] ==>
      forall c :: FoldStart(candles, f) <= c < FoldStart(candles, f + 1) && First(args) <= c < Limit(candles, args)
                  && c < before[|before| - 1].exit ==>
        !PassesSignal(candles, c, args.signal)
  }

  lemma FreeIsNoneMissed(candles: seq<Candle>, args: Args, f: nat)
    requires First(args) <= Limit(candles, args) && f < WALK_FORWARD_FOLDS
    requires Greedy.Ascending(Bounds(candles, args)) && Bounds(candles, args)[f + 1] <= Limit(candles, args)
    ensures var pass, exits, bounds := Signals(candles, args.signal), Exits(candles, args), Bounds(candles, args);
            && bounds[f] <= bounds[f + 1]
            && (BoundaryIsFree(candles, args, f)
                <==> Greedy.NoneMissed(pass, exits, Greedy.Folded(pass, exits, bounds, f), bounds[f], bounds[f + 1]))
  {
    hide FoldStart, PassesSignal, JoinedTrades, Greedy.Chosen, Greedy.Folded, TradesAt, TradeAt;
    var pass, exits, bounds := Signals(candles, args.signal), Exits(candles, args), Bounds(candles, args);
    JoinedIsFolded(candles, args, f);
    var left := Greedy.Folded(pass, exits, bounds, f);
    TradesAtEntries(candles, args, left);
    forall c | bounds[f] <= c < bounds[f + 1]
      ensures FoldStart(candles, f) <= c < FoldStart(candles, f + 1) && First(args) <= c < Limit(candles, args)
      ensures pass[c] == PassesSignal(candles, c, args.signal)
    {
    }
    forall c | FoldStart(candles, f) <= c < FoldStart(candles, f + 1) && First(args) <= c < Limit(candles, args)
      ensures bounds[f] <= c < bounds[f + 1]
      ensures pass[c] == PassesSignal(candles, c, args.signal)
    {
    }
  }

  /** Exactly when the folds are the whole: whatever the exit policy, the trades of the five folds, one after
      another, are the trades of the uncut simulation iff at every boundary no bar of the next fold passes while
      the last trade of the folds before it is still open. */
  lemma FoldsAreWholeIff(candles: seq<Candle>, args: Args)
    ensures JoinedTrades(candles, args, WALK_FORWARD_FOLDS) == WholeTrades(candles, args)
       <==> forall f :: 0 <= f < WALK_FORWARD_FOLDS ==> BoundaryIsFree(candles, args, f)
  {
    hide JoinedTrades, BoundaryIsFree, Simulated;
    if First(args) <= Limit(candles, args) {
      FoldsFollowLoop(candles, args);
    } else {
      NothingToSimulate(candles, args, 0, |candles| - 1);
      NothingJoined(candles, args, WALK_FORWARD_FOLDS);
      forall f | 0 <= f < WALK_FORWARD_FOLDS ensures BoundaryIsFree(candles, args, f) {
        NothingJoined(candles, args, f);
      }
    }
  }

  lemma {:induction false} NothingJoined(candles: seq<Candle>, args: Args, f: nat)
    requires Limit(candles, args) < First(args)
    ensures JoinedTrades(candles, args, f) == []
    ensures f < WALK_FORWARD_FOLDS ==> BoundaryIsFree(candles, args, f)
  {
    hide Simulated, FoldStart;
    if f > 0 {
      NothingJoined(candles, args, f - 1);
      NothingToSimulate(candles, args, FoldStart(candles, f - 1), FoldStart(candles, f) - 1);
    }
  }

  lemma WholeIsChosen(candles: seq<Candle>, args: Args)
    requires First(args) <= Limit(candles, args)
    ensures WholeTrades(candles, args)
         == TradesAt(candles, args, Greedy.Chosen(Signals(candles, args.signal), Exits(candles, args),
                                                  First(args), Limit(candles, args), First(args)))
  {
    hide Greedy.Chosen, TradesAt;
    RangeEntries(candles, args, 0, |candles| - 1);
  }

  lemma {:induction false} BoundariesFree(candles: seq<Candle>, args: Args, k: nat)
    requires First(args) <= Limit(candles, args) && k <= WALK_FORWARD_FOLDS
    requires Greedy.Ascending(Bounds(candles, args)) && Bounds(candles, args)[k] <= Limit(candles, args)
    ensures Greedy.NoneMissedBefore(Signals(candles, args.signal), Exits(candles, args), Bounds(candles, args), k)
       <==> forall f :: 0 <= f < k ==> BoundaryIsFree(candles, args, f)
  {
    hide BoundaryIsFree, Greedy.NoneMissed, Greedy.NoneMissedBefore, Greedy.Folded, Greedy.Chosen, PassesSignal, ExitAt;
    Greedy.FoldedStep(Signals(candles, args.signal), Exits(candles, args), Bounds(candles, args), k);
    if k > 0 {
      BoundariesFree(candles, args, k - 1);
      FreeIsNoneMissed(candles, args, k - 1);
    }
  }

  lemma FoldsFollowLoop(candles: seq<Candle>, args: Args)
    requires First(args) <= Limit(candles, args)
    ensures JoinedTrades(candles, args, WALK_FORWARD_FOLDS) == WholeTrades(candles, args)
       <==> forall f :: 0 <= f < WALK_FORWARD_FOLDS ==> BoundaryIsFree(candles, args, f)
  {
    hide JoinedTrades, WholeTrades, BoundaryIsFree, Greedy.Folded, Greedy.Chosen, Greedy.NoneMissedBefore, TradesAt;
    hide FoldStart;
    BoundsAscend(candles, args);
    var pass, exits, bounds := Signals(candles, args.signal), Exits(candles, args), Bounds(candles, args);
    JoinedIsFolded(candles, args, WALK_FORWARD_FOLDS);
    WholeIsChosen(candles, args);
    Greedy.FoldedAgreesIff(pass, exits, bounds, WALK_FORWARD_FOLDS);
    TradesAtInjective(candles, args, Greedy.Folded(pass, exits, bounds, WALK_FORWARD_FOLDS),
                      Greedy.Chosen(pass, exits, bounds[0], bounds[WALK_FORWARD_FOLDS], bounds[0]));
    BoundariesFree(candles, args, WALK_FORWARD_FOLDS);
  }

  // ---------------------------------------------------------------------------------------------
  // Counts under a fixed hold

  function FoldTradeCounts(candles: seq<Candle>, args: Args): seq<nat> {
    seq(WALK_FORWARD_FOLDS, f requires 0 <= f < WALK_FORWARD_FOLDS => |FoldTrades(candles, args, f)|)
  }

  lemma RangeCount(candles: seq<Candle>, args: Args, startIndex: nat, endIndex: int)
    requires args.protect.None? && startIndex <= endIndex + 1 <= |candles| && First(args) <= Limit(candles, args)
    ensures |Simulated(candles, args, startIndex, endIndex)|
         == Greedy.Count(Signals(candles, args.signal), args.holdBars,
                         Within(candles, args, startIndex), Within(candles, args, endIndex + 1))
  {
    hide Greedy.Chosen, Greedy.Entries, TradesAt;
    var from, to := Within(candles, args, startIndex), Within(candles, args, endIndex + 1);
    RangeEntries(candles, args, startIndex, endIndex);
    TradesAtEntries(candles, args, SimulatedEntries(candles, args, startIndex, endIndex));
    FixedHoldIsGreedy(candles, args, from, to, from);
  }

  lemma FoldCount(candles: seq<Candle>, args: Args, f: nat)
    requires args.protect.None? && f < WALK_FORWARD_FOLDS && First(args) <= Limit(candles, args)
    ensures |FoldTrades(candles, args, f)|
         == Greedy.Count(Signals(candles, args.signal), args.holdBars,
                         Within(candles, args, FoldStart(candles, f)), Within(candles, args, FoldStart(candles, f + 1)))
  {
    hide FoldStart;
    FoldStartsOrdered(candles, f, f + 1);
    FoldStartsOrdered(candles, f + 1, WALK_FORWARD_FOLDS);
    FoldEnds(candles);
    RangeCount(candles, args, FoldStart(candles, f), FoldStart(candles, f + 1) - 1);
  }

  /** Under a fixed hold the folds have at least as many trades as the uncut simulation, and at most four more:
      one for each boundary at which the no-overlap rule is forgotten. */
  lemma FoldsAddAtMostOnePerBoundary(candles: seq<Candle>, args: Args)
    requires args.protect.None?
    ensures var whole := |WholeTrades(candles, args)|;
            whole <= Greedy.Sum(FoldTradeCounts(candles, args)) <= whole + WALK_FORWARD_FOLDS - 1
  {
    hide Greedy.Sum, Greedy.Count, Simulated, FoldStart;
    if First(args) <= Limit(candles, args) {
      CountsFollowLoop(candles, args);
    } else {
      NothingToSimulate(candles, args, 0, |candles| - 1);
      forall f | 0 <= f < WALK_FORWARD_FOLDS ensures FoldTradeCounts(candles, args)[f] == 0 {
        NothingToSimulate(candles, args, FoldStart(candles, f), FoldStart(candles, f + 1) - 1);
      }
      SumOfNothing(FoldTradeCounts(candles, args));
    }
  }

  lemma {:induction false} SumOfNothing(counts: seq<nat>)
    requires forall f :: 0 <= f < |counts| ==> counts[f] == 0
    ensures Greedy.Sum(counts) == 0
  {
    if counts != [] {
      SumOfNothing(counts[..|counts| - 1]);
    }
  }

  lemma CountsFollowLoop(candles: seq<Candle>, args: Args)
    requires args.protect.None? && First(args) <= Limit(candles, args)
    ensures var whole := |WholeTrades(candles, args)|;
            whole <= Greedy.Sum(FoldTradeCounts(candles, args)) <= whole + WALK_FORWARD_FOLDS - 1
  {
    hide Greedy.Sum, Greedy.Count, Simulated, Greedy.FoldStart;
    var first, stop := First(args), Limit(candles, args);
    var pass := Signals(candles, args.signal);
    var counts := Greedy.FoldCounts(pass, args.holdBars, first, stop, |candles|, WALK_FORWARD_FOLDS);
    forall f | 0 <= f < WALK_FORWARD_FOLDS ensures FoldTradeCounts(candles, args)[f] == counts[f] {
      FoldCount(candles, args, f);
    }
    assert FoldTradeCounts(candles, args) == counts;
    RangeCount(candles, args, 0, |candles| - 1);
    Greedy.FoldsNearlyPartition(pass, args.holdBars, first, stop, |candles|, WALK_FORWARD_FOLDS);
  }
}
