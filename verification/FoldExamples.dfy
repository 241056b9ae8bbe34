/** Candle series on which index folds and the uncut simulation differ: once under a fixed hold, and in both
    directions under profit protection. */
module FoldExamples {
  import opened Basics
  import opened CandleSignals
  import opened BenchmarkSimulator
  import opened IndexFolds
  import opened RealArithmetic
  import Greedy

  /** `n` candles one millisecond apart, from time 1 on, with the given closes. */
  function Series(n: nat, close: nat -> Pos): (candles: seq<Candle>)
    ensures |candles| == n && forall i :: 0 <= i < n ==> candles[i] == Candle(i + 1, close(i), close(i), close(i))
  {
    seq(n, i requires 0 <= i => Candle(i + 1, close(i), close(i), close(i)))
  }

  /** Momentum over `lookback` bars without a risk filter, one KRW per trade and a fee of eight basis points. */
  function Plain(lookback: nat, minReturnBps: real, hold: nat, protect: Option<Protect>, root: real -> real): Args {
    Args(SignalConfig(lookback, minReturnBps, Momentum, NoFilter, None, root), hold, 1.0, 0.0008, protect)
  }

  // ---------------------------------------------------------------------------------------------
  // Reading off entries and exits

  lemma {:induction false} JoinedLength(candles: seq<Candle>, args: Args, f: nat)
    requires f <= WALK_FORWARD_FOLDS
    ensures |JoinedTrades(candles, args, f)| == Greedy.Sum(FoldTradeCounts(candles, args)[..f])
  {
    hide FoldTrades;
    if f > 0 {
      JoinedLength(candles, args, f - 1);
      var counts := FoldTradeCounts(candles, args);
      assert counts[..f][..f - 1] == counts[..f - 1];
    }
  }

  lemma FoldLength(candles: seq<Candle>, args: Args, f: nat, entries: seq<nat>)
    requires First(args) <= Limit(candles, args) && f < WALK_FORWARD_FOLDS
    requires 0 <= Within(candles, args, FoldStart(candles, f))
                <= Within(candles, args, FoldStart(candles, f + 1)) <= Limit(candles, args)
    requires Greedy.Chosen(Signals(candles, args.signal), Exits(candles, args),
                           Within(candles, args, FoldStart(candles, f)),
                           Within(candles, args, FoldStart(candles, f + 1)),
                           Within(candles, args, FoldStart(candles, f))) == entries
    ensures |FoldTrades(candles, args, f)| == |entries|
  {
    hide FoldStart, Greedy.Chosen, TradesAt;
    FoldRange(candles, args, f);
    TradesAtEntries(candles, args, entries);
  }

  lemma WholeLength(candles: seq<Candle>, args: Args, entries: seq<nat>)
    requires First(args) <= Limit(candles, args)
    requires Greedy.Chosen(Signals(candles, args.signal), Exits(candles, args),
                           First(args), Limit(candles, args), First(args)) == entries
    ensures |WholeTrades(candles, args)| == |entries|
  {
    hide Greedy.Chosen, TradesAt;
    WholeIsChosen(candles, args);
    TradesAtEntries(candles, args, entries);
  }

  lemma SumOfFive(counts: seq<nat>)
    requires |counts| == 5
    ensures Greedy.Sum(counts) == counts[0] + counts[1] + counts[2] + counts[3] + counts[4]
  {
    assert counts[..4][..3] == counts[..3] && counts[..3][..2] == counts[..2] && counts[..2][..1] == counts[..1];
    assert Greedy.Sum(counts[..1]) == Greedy.Sum([]) + counts[0];
    assert Greedy.Sum(counts[..2]) == Greedy.Sum(counts[..1]) + counts[1];
    assert Greedy.Sum(counts[..3]) == Greedy.Sum(counts[..2]) + counts[2];
    assert Greedy.Sum(counts[..4]) == Greedy.Sum(counts[..3]) + counts[3];
  }

  /** A position that is never in profit is held to the end. */
  lemma {:induction false} NeverProtected(p: Protect, threshold: real, marks: seq<real>, j: nat)
    requires j <= |marks| && forall c :: 0 <= c < |marks| ==> marks[c] <= 0.0
    ensures ProtectFrom(p, threshold, marks, j) == None
    decreases |marks| - j
  {
    if j < |marks| {
      NeverProtected(p, threshold, marks, j + 1);
    }
  }

  lemma HeldToTheEnd(candles: seq<Candle>, args: Args, entry: nat)
    requires entry + args.holdBars < |candles| && args.notionalKrw == 1.0
    requires forall c :: entry < c <= entry + args.holdBars ==> candles[c].close <= candles[entry].close
    ensures ExitAt(candles, args, entry) == entry + args.holdBars
  {
    forall j | 0 <= j < args.holdBars ensures Marks(candles, args, entry)[j] <= 0.0 {
      RatioAboveOne(candles[entry + 1 + j].close, candles[entry].close);
      MarkOfOne(candles, args, entry, entry + 1 + j);
    }
    if args.protect.Some? {
      var p := args.protect.value;
      NeverProtected(p, DrawdownThreshold(args, p), Marks(candles, args, entry), 0);
    }
  }

  lemma MarkOfOne(candles: seq<Candle>, args: Args, entry: nat, cursor: nat)
    requires entry < |candles| && cursor < |candles| && args.notionalKrw == 1.0
    ensures MarkPnl(candles, args, entry, cursor) == candles[cursor].close / candles[entry].close - 1.0
  {
    var x := candles[cursor].close / candles[entry].close - 1.0;
    assert 1.0 * x == x;
  }

  // ---------------------------------------------------------------------------------------------
  // Fixed hold: a flat market that passes at every bar

  function Flat(i: nat): Pos { 1.0 }

  /** Three trades uncut, entered at 24, 27 and 30; the fold that starts at bar 28 enters there, while the trade
      of bar 27 is open, so that the folds have four. */
  lemma FixedHoldFoldsDiffer(root: real -> real)
    ensures var candles, args := Series(35, Flat), Plain(1, 0.0, 3, None, root);
            && |WholeTrades(candles, args)| == 3
            && Greedy.Sum(FoldTradeCounts(candles, args)) == 4
            && JoinedTrades(candles, args, WALK_FORWARD_FOLDS) != WholeTrades(candles, args)
  {
    hide WholeTrades, FoldTrades, JoinedTrades;
    var candles, args := Series(35, Flat), Plain(1, 0.0, 3, None, root);
    FlatInputs(root);
    FlatWhole(root);
    FlatFolds(root);
    var counts := FoldTradeCounts(candles, args);
    SumOfFive(counts);
    JoinedLength(candles, args, WALK_FORWARD_FOLDS);
    assert counts[..WALK_FORWARD_FOLDS] == counts;
  }

  lemma FlatInputs(root: real -> real)
    ensures var candles, args := Series(35, Flat), Plain(1, 0.0, 3, None, root);
            && First(args) == 24 && Limit(candles, args) == 32
            && (forall c :: 24 <= c < 32 ==> Signals(candles, args.signal)[c])
            && (forall c :: 24 <= c < 32 ==> Exits(candles, args)[c] == c + 3)
  {
    var candles, args := Series(35, Flat), Plain(1, 0.0, 3, None, root);
    forall c | 24 <= c < 32 ensures PassesSignal(candles, c, args.signal) {
      FlatReturn(candles[c].close, candles[c - 1].close);
    }
  }

  lemma FlatReturn(x: real, y: real)
    requires x == 1.0 && y == 1.0
    ensures Bps(x, y) == 0.0
  {
    assert x / y == 1.0;
  }

  lemma FlatWhole(root: real -> real)
    ensures var candles, args := Series(35, Flat), Plain(1, 0.0, 3, None, root);
            |WholeTrades(candles, args)| == 3
  {
    hide WholeTrades, Signals, Exits, Greedy.Chosen;
    var candles, args := Series(35, Flat), Plain(1, 0.0, 3, None, root);
    FlatInputs(root);
    var pass, exits := Signals(candles, args.signal), Exits(candles, args);
    InputLengths(candles, args);
    Greedy.TakeThenWait(pass, exits, 24, 32, 24);
    Greedy.TakeThenWait(pass, exits, 27, 32, 27);
    Greedy.TakeThenWait(pass, exits, 30, 32, 30);
    NoneLeft(pass, exits, 32, 33);
    WholeLength(candles, args, [24, 27, 30]);
  }

  lemma InputLengths(candles: seq<Candle>, args: Args)
    ensures |Signals(candles, args.signal)| == |candles| && |Exits(candles, args)| == Limit(candles, args)
  {
  }

  lemma NoneLeft(pass: seq<bool>, exits: seq<nat>, stop: nat, next: int)
    requires stop <= |pass| && stop <= |exits|
    ensures Greedy.Chosen(pass, exits, stop, stop, next) == []
  {
  }

  lemma FlatFolds(root: real -> real)
    ensures var candles, args := Series(35, Flat), Plain(1, 0.0, 3, None, root);
            && |FoldTrades(candles, args, 0)| == |FoldTrades(candles, args, 1)| == |FoldTrades(candles, args, 2)| == 0
            && |FoldTrades(candles, args, 3)| == |FoldTrades(candles, args, 4)| == 2
  {
    hide FoldTrades, Signals, Exits, Greedy.Chosen;
    var candles, args := Series(35, Flat), Plain(1, 0.0, 3, None, root);
    FlatInputs(root);
    InputLengths(candles, args);
    var pass, exits := Signals(candles, args.signal), Exits(candles, args);
    NoneLeft(pass, exits, 24, 24);
    FoldLength(candles, args, 0, []);
    FoldLength(candles, args, 1, []);
    FoldLength(candles, args, 2, []);
    Greedy.TakeThenWait(pass, exits, 24, 28, 24);
    Greedy.TakeThenWait(pass, exits, 27, 28, 27);
    NoneLeft(pass, exits, 28, 30);
    FoldLength(candles, args, 3, [24, 27]);
    Greedy.TakeThenWait(pass, exits, 28, 32, 28);
    Greedy.TakeThenWait(pass, exits, 31, 32, 31);
    NoneLeft(pass, exits, 32, 34);
    FoldLength(candles, args, 4, [28, 31]);
  }

  // ---------------------------------------------------------------------------------------------
  // Profit protection: 45 candles, folds of nine, a hold of twelve bars and a lookback of twelve

  /** Signals over the flat start pass exactly where the close is above it. */
  lemma RisePasses(candles: seq<Candle>, args: Args, c: nat)
    requires 12 <= c < |candles| && args.signal == SignalConfig(12, 1.0, Momentum, NoFilter, None, args.signal.root)
    requires candles[c - 12].close == 1.0 && (candles[c].close == 1.0 || candles[c].close >= 2.0)
    ensures PassesSignal(candles, c, args.signal) <==> candles[c].close >= 2.0
  {
    var x: real := candles[c].close;
    assert x / 1.0 == x;
  }

  lemma ProtectedBounds(candles: seq<Candle>, args: Args)
    requires |candles| == 45 && args.holdBars == 12 && args.signal.lookback == 12
    ensures First(args) == 24 && Limit(candles, args) == 33
    ensures forall f :: 0 <= f <= 5 ==> FoldStart(candles, f) == 9 * f
    ensures Within(candles, args, 0) == Within(candles, args, 9) == Within(candles, args, 18) == 24
    ensures Within(candles, args, 27) == 27 && Within(candles, args, 36) == Within(candles, args, 45) == 33
  {
  }

  /** A mark of the holding period, in terms of closes. */
  lemma MarkAtBar(candles: seq<Candle>, args: Args, entry: nat, j: nat)
    requires entry + args.holdBars < |candles| && j < args.holdBars && args.notionalKrw == 1.0
    ensures Marks(candles, args, entry)[j] == candles[entry + 1 + j].close / candles[entry].close - 1.0
  {
    MarkOfOne(candles, args, entry, entry + 1 + j);
  }

  // --- Folds that gain five trades

  /** A spike at bar 26, then a slow rise. */
  function Spike(i: nat): Pos {
    if i < 26 || i == 27 then 1.0 else if i == 26 then 100.0 else i as real - 26.0
  }

  /** Protection without thresholds: leave at the first bar in profit. */
  const AT_ONCE := Protect(0.0, 0.0, 0.0)

  lemma LeavesAtOnce(candles: seq<Candle>, args: Args, entry: nat)
    requires entry + args.holdBars < |candles| && args.holdBars > 0 && args.notionalKrw == 1.0
    requires args.protect == Some(AT_ONCE) && candles[entry + 1].close > candles[entry].close
    ensures ExitAt(candles, args, entry) == entry + 1
  {
    MarkAtBar(candles, args, entry, 0);
    RatioAboveOne(candles[entry + 1].close, candles[entry].close);
    ZeroThreshold(args);
    var marks := Marks(candles, args, entry);
    assert Triggers(AT_ONCE, 0.0, marks, 0);
  }

  lemma ZeroThreshold(args: Args)
    requires args.notionalKrw == 1.0
    ensures DrawdownThreshold(args, AT_ONCE) == 0.0
  {
  }

  lemma SpikeInputs(root: real -> real)
    ensures var candles, args := Series(45, Spike), Plain(12, 1.0, 12, Some(AT_ONCE), root);
            && (forall c :: 24 <= c < 33 ==> (Signals(candles, args.signal)[c] <==> c == 26 || 28 <= c))
            && Exits(candles, args)[26] == 38
            && (forall c :: 28 <= c < 33 ==> Exits(candles, args)[c] == c + 1)
  {
    hide PassesSignal, ExitAt;
    var candles, args := Series(45, Spike), Plain(12, 1.0, 12, Some(AT_ONCE), root);
    forall c | 24 <= c < 33 ensures PassesSignal(candles, c, args.signal) <==> c == 26 || 28 <= c {
      RisePasses(candles, args, c);
    }
    HeldToTheEnd(candles, args, 26);
    forall c | 28 <= c < 33 ensures ExitAt(candles, args, c) == c + 1 {
      LeavesAtOnce(candles, args, c);
    }
  }

  /** Uncut, the trade of bar 26 stays open past every other bar; the fold that starts at bar 27 forgets it and
      takes five trades more: the folds exceed the whole by more than one per boundary. */
  lemma ProtectedFoldsGainFive(root: real -> real)
    ensures var candles, args := Series(45, Spike), Plain(12, 1.0, 12, Some(AT_ONCE), root);
            && |WholeTrades(candles, args)| == 1
            && Greedy.Sum(FoldTradeCounts(candles, args)) == 6
            && JoinedTrades(candles, args, WALK_FORWARD_FOLDS) != WholeTrades(candles, args)
  {
    hide WholeTrades, FoldTrades, JoinedTrades, Signals, Exits, Greedy.Chosen, FoldStart, Within;
    var candles, args := Series(45, Spike), Plain(12, 1.0, 12, Some(AT_ONCE), root);
    SpikeInputs(root);
    ProtectedBounds(candles, args);
    InputLengths(candles, args);
    var pass, exits := Signals(candles, args.signal), Exits(candles, args);
    Greedy.IdleUntil(pass, exits, 24, 26, 33, 24);
    Greedy.TakeThenWait(pass, exits, 26, 33, 24);
    NoneLeft(pass, exits, 33, 38);
    WholeLength(candles, args, [26]);
    Greedy.IdleUntil(pass, exits, 24, 26, 27, 24);
    Greedy.TakeThenWait(pass, exits, 26, 27, 24);
    NoneLeft(pass, exits, 27, 38);
    FoldLength(candles, args, 2, [26]);
    RiseTrades(pass, exits);
    FoldLength(candles, args, 3, [28, 29, 30, 31, 32]);
    OuterFolds(candles, args);
    CountFolds(candles, args, 1, 5);
  }

  lemma RiseTrades(pass: seq<bool>, exits: seq<nat>)
    requires 33 <= |pass| && |exits| == 33
    requires !pass[27] && forall c :: 28 <= c < 33 ==> pass[c] && exits[c] == c + 1
    ensures Greedy.Chosen(pass, exits, 27, 33, 27) == [28, 29, 30, 31, 32]
  {
    hide Greedy.Chosen;
    Greedy.IdleUntil(pass, exits, 27, 28, 33, 27);
    Greedy.TakeThenWait(pass, exits, 28, 33, 27);
    Greedy.TakeThenWait(pass, exits, 29, 33, 29);
    Greedy.TakeThenWait(pass, exits, 30, 33, 30);
    Greedy.TakeThenWait(pass, exits, 31, 33, 31);
    Greedy.TakeThenWait(pass, exits, 32, 33, 32);
    NoneLeft(pass, exits, 33, 33);
  }

  /** Folds 0, 1 and 4 have no bar at which a trade can be opened. */
  lemma OuterFolds(candles: seq<Candle>, args: Args)
    requires |candles| == 45 && args.holdBars == 12 && args.signal.lookback == 12
    ensures |FoldTrades(candles, args, 0)| == |FoldTrades(candles, args, 1)| == |FoldTrades(candles, args, 4)| == 0
  {
    hide FoldTrades, Signals, Exits, Greedy.Chosen, FoldStart, Within;
    ProtectedBounds(candles, args);
    InputLengths(candles, args);
    var pass, exits := Signals(candles, args.signal), Exits(candles, args);
    NoneLeft(pass, exits, 24, 24);
    NoneLeft(pass, exits, 33, 33);
    FoldLength(candles, args, 0, []);
    FoldLength(candles, args, 1, []);
    FoldLength(candles, args, 4, []);
  }

  lemma CountFolds(candles: seq<Candle>, args: Args, second: nat, third: nat)
    requires |FoldTrades(candles, args, 0)| == |FoldTrades(candles, args, 1)| == |FoldTrades(candles, args, 4)| == 0
    requires |FoldTrades(candles, args, 2)| == second && |FoldTrades(candles, args, 3)| == third
    ensures Greedy.Sum(FoldTradeCounts(candles, args)) == second + third
    ensures |JoinedTrades(candles, args, WALK_FORWARD_FOLDS)| == second + third
  {
    hide FoldTrades, JoinedTrades;
    var counts := FoldTradeCounts(candles, args);
    SumOfFive(counts);
    JoinedLength(candles, args, WALK_FORWARD_FOLDS);
    assert counts[..WALK_FORWARD_FOLDS] == counts;
  }

  // --- Folds that lose a trade

  /** Two short rallies after bar 26. */
  function Rallies(i: nat): Pos {
    if i < 26 then 1.0
    else if i == 26 then 2.0
    else if i == 27 then 9.0
    else if i == 28 then 3.0
    else if i == 29 then 8.0
    else 4.0
  }

  /** Leave in profit after a peak of one and a fall of one. */
  const GIVE_BACK := Protect(1.0, 1.0, 0.0)

  lemma LeavesAfterPeak(candles: seq<Candle>, args: Args, entry: nat)
    requires entry + args.holdBars < |candles| && args.holdBars > 1 && args.notionalKrw == 1.0
    requires args.protect == Some(GIVE_BACK)
    requires var first, second :=
               candles[entry + 1].close / candles[entry].close, candles[entry + 2].close / candles[entry].close;
             2.0 <= first && 1.0 < second <= first - 1.0
    ensures ExitAt(candles, args, entry) == entry + 2
  {
    MarkAtBar(candles, args, entry, 0);
    MarkAtBar(candles, args, entry, 1);
    var marks := Marks(candles, args, entry);
    assert DrawdownThreshold(args, GIVE_BACK) == 1.0;
    assert PeakMark(marks, 0) == marks[0] && PeakMark(marks, 1) == marks[0];
    assert !Triggers(GIVE_BACK, 1.0, marks, 0) && Triggers(GIVE_BACK, 1.0, marks, 1);
    assert ProtectFrom(GIVE_BACK, 1.0, marks, 1) == Some(1) == ProtectFrom(GIVE_BACK, 1.0, marks, 0);
  }

  lemma RalliesInputs(root: real -> real)
    ensures var candles, args := Series(45, Rallies), Plain(12, 1.0, 12, Some(GIVE_BACK), root);
            && (forall c :: 24 <= c < 33 ==> (Signals(candles, args.signal)[c] <==> 26 <= c))
            && Exits(candles, args)[26] == 28 && Exits(candles, args)[27] == 39
            && Exits(candles, args)[28] == 30 && Exits(candles, args)[30] == 42
  {
    hide PassesSignal, ExitAt;
    var candles, args := Series(45, Rallies), Plain(12, 1.0, 12, Some(GIVE_BACK), root);
    forall c | 24 <= c < 33 ensures PassesSignal(candles, c, args.signal) <==> 26 <= c {
      RisePasses(candles, args, c);
    }
    LeavesAfterPeak(candles, args, 26);
    HeldToTheEnd(candles, args, 27);
    LeavesAfterPeak(candles, args, 28);
    HeldToTheEnd(candles, args, 30);
  }

  /** Uncut, bar 27 falls into an open trade, and bars 28 and 30 are entered after it; the fold that starts at bar
      27 enters there and is stuck, so that the folds have fewer trades than the whole. */
  lemma ProtectedFoldsLoseOne(root: real -> real)
    ensures var candles, args := Series(45, Rallies), Plain(12, 1.0, 12, Some(GIVE_BACK), root);
            && |WholeTrades(candles, args)| == 3
            && Greedy.Sum(FoldTradeCounts(candles, args)) == 2
            && JoinedTrades(candles, args, WALK_FORWARD_FOLDS) != WholeTrades(candles, args)
  {
    hide WholeTrades, FoldTrades, JoinedTrades, Signals, Exits, Greedy.Chosen, FoldStart, Within;
    var candles, args := Series(45, Rallies), Plain(12, 1.0, 12, Some(GIVE_BACK), root);
    RalliesInputs(root);
    ProtectedBounds(candles, args);
    InputLengths(candles, args);
    var pass, exits := Signals(candles, args.signal), Exits(candles, args);
    Greedy.IdleUntil(pass, exits, 24, 26, 33, 24);
    Greedy.TakeThenWait(pass, exits, 26, 33, 24);
    Greedy.TakeThenWait(pass, exits, 28, 33, 28);
    Greedy.TakeThenWait(pass, exits, 30, 33, 30);
    NoneLeft(pass, exits, 33, 42);
    WholeLength(candles, args, [26, 28, 30]);
    Greedy.IdleUntil(pass, exits, 24, 26, 27, 24);
    Greedy.TakeThenWait(pass, exits, 26, 27, 24);
    NoneLeft(pass, exits, 27, 28);
    FoldLength(candles, args, 2, [26]);
    Greedy.TakeThenWait(pass, exits, 27, 33, 27);
    NoneLeft(pass, exits, 33, 39);
    FoldLength(candles, args, 3, [27]);
    OuterFolds(candles, args);
    CountFolds(candles, args, 1, 1);
  }
}
