/** The single-candidate benchmark of `src/cli/analyze-bithumb-candidate-benchmark.ts`, with its
    profit-protecting early exit, and the fixed-hold momentum simulator it generalizes. */
module BenchmarkSimulator {
  import opened Basics
  import opened CandleSignals
  import opened RealArithmetic
  import Greedy

  datatype Protect = Protect(minPeakKrw: real, minDrawdownKrw: real, drawdownBps: real)

  datatype Args = Args(signal: SignalConfig, holdBars: nat, notionalKrw: real, feeRate: real, protect: Option<Protect>)

  datatype Trade = Trade(
    entry: nat, exit: nat, entryAt: int, exitAt: int, netReturn: real, pnlKrw: real, protected: bool)

  // ---------------------------------------------------------------------------------------------
  // The exit, stated over the marks of the holding period

  function MarkPnl(candles: seq<Candle>, args: Args, entry: nat, cursor: nat): real
    requires entry < |candles| && cursor < |candles|
  {
    args.notionalKrw * (candles[cursor].close / candles[entry].close - 1.0)
  }

  /** The marks of the bars after `entry` up to the fixed hold. */
  function Marks(candles: seq<Candle>, args: Args, entry: nat): seq<real>
    requires entry + args.holdBars < |candles|
  {
    seq(args.holdBars, j requires 0 <= j < args.holdBars => MarkPnl(candles, args, entry, entry + 1 + j))
  }

  function DrawdownThreshold(args: Args, p: Protect): real {
    Max(p.minDrawdownKrw, args.notionalKrw * (p.drawdownBps / 10_000.0))
  }

  /** `peak` is the best of the marks up to `j`. */
  ghost predicate IsPeakMark(marks: seq<real>, j: nat, peak: real)
    requires j < |marks|
  {
    && (forall c :: 0 <= c <= j ==> marks[c] <= peak)
    && (exists c :: 0 <= c <= j && marks[c] == peak)
  }

  /** At mark `j` the position is in profit, has been up by the minimum, and has given back the threshold. */
  ghost predicate GivesBack(p: Protect, threshold: real, marks: seq<real>, j: nat)
    requires j < |marks|
  {
    exists peak ::
      && IsPeakMark(marks, j, peak)
      && peak >= p.minPeakKrw
      && marks[j] > 0.0
      && marks[j] - peak <= -threshold
  }

  function PeakMark(marks: seq<real>, j: nat): (peak: real)
    requires j < |marks|
    ensures IsPeakMark(marks, j, peak)
  {
    if j == 0 then marks[0]
    else
      var before := PeakMark(marks, j - 1);
      Max(before, marks[j])
  }

  predicate Triggers(p: Protect, threshold: real, marks: seq<real>, j: nat)
    requires j < |marks|
  {
    var peak := PeakMark(marks, j);
    peak >= p.minPeakKrw && marks[j] > 0.0 && marks[j] - peak <= -threshold
  }

  /** The first mark from `j` on at which the protection triggers. */
  function ProtectFrom(p: Protect, threshold: real, marks: seq<real>, j: nat): (r: Option<nat>)
    requires j <= |marks|
    ensures r.Some? ==> j <= r.value < |marks|
    decreases |marks| - j
  {
    if j == |marks| then None
    else if Triggers(p, threshold, marks, j) then Some(j)
    else ProtectFrom(p, threshold, marks, j + 1)
  }

  /** The bar of a profit-protecting exit, if there is one before or at the end of the hold. */
  function EarlyExit(candles: seq<Candle>, args: Args, entry: nat): (r: Option<nat>)
    requires entry + args.holdBars < |candles|
    ensures r.Some? ==> entry < r.value <= entry + args.holdBars
  {
    if args.protect.None? then None
    else
      match ProtectFrom(args.protect.value, DrawdownThreshold(args, args.protect.value), Marks(candles, args, entry), 0)
      case None => None
      case Some(j) => Some(entry + 1 + j)
  }

  /** The bar at which a position opened at `entry` is closed. */
  function ExitAt(candles: seq<Candle>, args: Args, entry: nat): (exit: nat)
    requires entry + args.holdBars < |candles|
    ensures entry <= exit <= entry + args.holdBars
  {
    var early := EarlyExit(candles, args, entry);
    if early.Some? then early.value else entry + args.holdBars
  }

  function TradeOf(candles: seq<Candle>, args: Args, entry: nat, exit: nat, protected: bool): Trade
    requires entry < |candles| && exit < |candles|
  {
    var net := candles[exit].close / candles[entry].close - 1.0 - args.feeRate;
    Trade(entry, exit, candles[entry].ts, candles[exit].ts, net, args.notionalKrw * net, protected)
  }

  function TradeAt(candles: seq<Candle>, args: Args, entry: nat): (t: Trade)
    requires entry + args.holdBars < |candles|
  {
    TradeOf(candles, args, entry, ExitAt(candles, args, entry), EarlyExit(candles, args, entry).Some?)
  }

  lemma {:induction false} ProtectFromIsFirst(p: Protect, threshold: real, marks: seq<real>, j: nat)
    requires j <= |marks|
    ensures var r := ProtectFrom(p, threshold, marks, j);
            && (r.Some? ==>
                  && GivesBack(p, threshold, marks, r.value)
                  && (forall c :: j <= c < r.value ==> !GivesBack(p, threshold, marks, c)))
            && (r.None? ==> forall c :: j <= c < |marks| ==> !GivesBack(p, threshold, marks, c))
    decreases |marks| - j
  {
    if j < |marks| {
      TriggersIsGivesBack(p, threshold, marks, j);
      if !Triggers(p, threshold, marks, j) {
        ProtectFromIsFirst(p, threshold, marks, j + 1);
      }
    }
  }

  lemma TriggersIsGivesBack(p: Protect, threshold: real, marks: seq<real>, j: nat)
    requires j < |marks|
    ensures Triggers(p, threshold, marks, j) <==> GivesBack(p, threshold, marks, j)
  {
    var best := PeakMark(marks, j);
    assert IsPeakMark(marks, j, best);
    forall peak | IsPeakMark(marks, j, peak) ensures peak == best {
    }
  }

  /** A protected exit is the first bar after the entry at which the position, in profit, has given back the
      threshold from a sufficient peak; without such a bar the position is held for the full time. */
  lemma EarlyExitIsFirstGiveBack(candles: seq<Candle>, args: Args, entry: nat)
    requires entry + args.holdBars < |candles| && args.protect.Some?
    ensures var p, r, marks := args.protect.value, EarlyExit(candles, args, entry), Marks(candles, args, entry);
            var threshold := DrawdownThreshold(args, p);
            && (r.Some? ==>
                  && GivesBack(p, threshold, marks, r.value - entry - 1)
                  && (forall c :: 0 <= c < r.value - entry - 1 ==> !GivesBack(p, threshold, marks, c)))
            && (r.None? ==> forall c :: 0 <= c < args.holdBars ==> !GivesBack(p, threshold, marks, c))
  {
    ProtectFromIsFirst(args.protect.value, DrawdownThreshold(args, args.protect.value), Marks(candles, args, entry), 0);
  }

  // ---------------------------------------------------------------------------------------------
  // The simulation

  /** The bars at which a trade can be opened. */
  function Limit(candles: seq<Candle>, args: Args): nat {
    if args.holdBars < |candles| then |candles| - args.holdBars else 0
  }

  function Exits(candles: seq<Candle>, args: Args): seq<nat> {
    seq(Limit(candles, args), e requires 0 <= e < Limit(candles, args) => ExitAt(candles, args, e))
  }

  function TradesAt(candles: seq<Candle>, args: Args, entries: seq<nat>): seq<Trade>
    requires forall k :: 0 <= k < |entries| ==> entries[k] < Limit(candles, args)
  {
    if entries == [] then []
    else
      assert entries[0] < Limit(candles, args);
      [TradeAt(candles, args, entries[0])] + TradesAt(candles, args, entries[1..])
  }

  /** The entries of the loop over `[i, stop)` when none is allowed before `next`. */
  function EntriesFrom(candles: seq<Candle>, args: Args, i: nat, stop: nat, next: int): (s: seq<nat>)
    requires stop <= Limit(candles, args)
    ensures forall k :: 0 <= k < |s| ==> i <= s[k] < stop
  {
    Greedy.Chosen(Signals(candles, args.signal), Exits(candles, args), i, stop, next)
  }

  /** The first index an entry is looked for, and the first at which it no longer is. */
  function FirstIndex(args: Args, startIndex: nat): nat {
    MaxInt(MaxInt(startIndex, args.signal.lookback), 24)
  }

  function StopIndex(candles: seq<Candle>, args: Args, endIndex: int): nat {
    MaxInt(0, MinInt(endIndex + 1, |candles| - args.holdBars))
  }

  function SimulatedEntries(candles: seq<Candle>, args: Args, startIndex: nat, endIndex: int): seq<nat> {
    EntriesFrom(candles, args, FirstIndex(args, startIndex), StopIndex(candles, args, endIndex), startIndex)
  }

  function Simulated(candles: seq<Candle>, args: Args, startIndex: nat, endIndex: int): seq<Trade> {
    TradesAt(candles, args, SimulatedEntries(candles, args, startIndex, endIndex))
  }

  /** The running peak before mark `j`: nothing yet, or the best of the marks so far. */
  ghost predicate RunsAt(peak: Option<real>, marks: seq<real>, j: nat)
    requires j <= |marks|
  {
    (peak.None? <==> j == 0) && (peak.Some? ==> peak.value == PeakMark(marks, j - 1))
  }

  method MarkAt(candles: seq<Candle>, args: Args, entry: nat, cursor: nat, ghost marks: seq<real>) returns (now: real)
    requires entry < cursor <= entry + args.holdBars < |candles|
    requires marks == Marks(candles, args, entry)
    ensures now == marks[cursor - entry - 1]
  {
    now := MarkPnl(candles, args, entry, cursor);
    ghost var j := cursor - entry - 1;
    assert entry + 1 + j == cursor;
  }

  lemma PeakStep(marks: seq<real>, j: nat, peak: Option<real>)
    requires j < |marks| && RunsAt(peak, marks, j)
    ensures RunsAt(Some(if peak.None? then marks[j] else Max(peak.value, marks[j])), marks, j + 1)
  {
    hide IsPeakMark;
  }

  /** The inner loop: a running peak over the holding period. */
  method FindEarlyExit(candles: seq<Candle>, args: Args, entry: nat) returns (exit: Option<nat>)
    requires entry + args.holdBars < |candles| && args.protect.Some?
    ensures exit == EarlyExit(candles, args, entry)
  {
    hide MarkPnl, DrawdownThreshold, PeakMark, IsPeakMark;
    var p := args.protect.value;
    var threshold := DrawdownThreshold(args, p);
    ghost var marks := Marks(candles, args, entry);
    var peak: Option<real> := None;
    var cursor := entry + 1;
    while cursor <= entry + args.holdBars
      invariant entry < cursor <= entry + args.holdBars + 1
      invariant RunsAt(peak, marks, cursor - entry - 1)
      invariant ProtectFrom(p, threshold, marks, cursor - entry - 1) == ProtectFrom(p, threshold, marks, 0)
    {
      var now := MarkAt(candles, args, entry, cursor, marks);
      PeakStep(marks, cursor - entry - 1, peak);
      peak := Some(if peak.None? then now else Max(peak.value, now));
      if peak.value >= p.minPeakKrw && now > 0.0 && now - peak.value <= -threshold {
        return Some(cursor);
      }
      cursor := cursor + 1;
    }
    exit := None;
  }

  method OpenTrade(candles: seq<Candle>, args: Args, index: nat) returns (trade: Trade)
    requires index + args.holdBars < |candles|
    ensures trade == TradeAt(candles, args, index)
    ensures trade.exit == ExitAt(candles, args, index)
  {
    var exit: Option<nat> := None;
    if args.protect.Some? {
      exit := FindEarlyExit(candles, args, index);
    }
    var exitIndex := if exit.Some? then exit.value else index + args.holdBars;
    var net := candles[exitIndex].close / candles[index].close - 1.0 - args.feeRate;
    trade := Trade(index, exitIndex, candles[index].ts, candles[exitIndex].ts,
                   net, args.notionalKrw * net, exit.Some?);
  }

  /** One pass of the loop: an entry blocks until its exit, anything else moves on. */
  lemma EntriesStep(candles: seq<Candle>, args: Args, index: nat, stop: nat, next: int)
    requires index < stop <= Limit(candles, args)
    ensures EntriesFrom(candles, args, index, stop, next)
         == if index >= next && PassesSignal(candles, index, args.signal) then
              [index] + EntriesFrom(candles, args, index + 1, stop, ExitAt(candles, args, index))
            else EntriesFrom(candles, args, index + 1, stop, next)
  {
    hide ExitAt;
    assert Exits(candles, args)[index] == ExitAt(candles, args, index);
    assert Signals(candles, args.signal)[index] == PassesSignal(candles, index, args.signal);
  }

  lemma TradesStep(candles: seq<Candle>, args: Args, index: nat, rest: seq<nat>)
    requires index < Limit(candles, args) && forall k :: 0 <= k < |rest| ==> rest[k] < Limit(candles, args)
    ensures TradesAt(candles, args, [index] + rest) == [TradeAt(candles, args, index)] + TradesAt(candles, args, rest)
  {
    assert ([index] + rest)[1..] == rest;
  }

  method Simulate(candles: seq<Candle>, args: Args, startIndex: nat, endIndex: int) returns (trades: seq<Trade>)
    ensures trades == Simulated(candles, args, startIndex, endIndex)
  {
    hide PassesSignal, TradeAt, ExitAt, EntriesFrom, TradesAt;
    trades := [];
    var nextEntry := startIndex;
    var stop := StopIndex(candles, args, endIndex);
    var index := FirstIndex(args, startIndex);
    ghost var all := Simulated(candles, args, startIndex, endIndex);
    while index < stop
      invariant all == trades + TradesAt(candles, args, EntriesFrom(candles, args, index, stop, nextEntry))
      decreases if index < stop then stop - index else 0
    {
      EntriesStep(candles, args, index, stop, nextEntry);
      var passes := false;
      if index >= nextEntry {
        passes := TestSignal(candles, index, args.signal);
      }
      if passes {
        var trade := OpenTrade(candles, args, index);
        TradesStep(candles, args, index, EntriesFrom(candles, args, index + 1, stop, trade.exit));
        trades := trades + [trade];
        nextEntry := trade.exit;
      }
      index := index + 1;
    }
    NoMoreEntries(candles, args, index, stop, nextEntry);
  }

  lemma NoMoreEntries(candles: seq<Candle>, args: Args, index: nat, stop: nat, next: int)
    requires stop <= index && stop <= Limit(candles, args)
    ensures TradesAt(candles, args, EntriesFrom(candles, args, index, stop, next)) == []
  {
  }

  // ---------------------------------------------------------------------------------------------
  // Trades never overlap, and nothing looks ahead

  lemma {:induction false} TradesAtEntries(candles: seq<Candle>, args: Args, entries: seq<nat>)
    requires forall k :: 0 <= k < |entries| ==> entries[k] < Limit(candles, args)
    ensures |TradesAt(candles, args, entries)| == |entries|
    ensures forall k :: 0 <= k < |entries| ==>
              var t := TradesAt(candles, args, entries)[k];
              && t == TradeAt(candles, args, entries[k])
              && t.entry == entries[k] && t.exit == Exits(candles, args)[entries[k]]
  {
    hide PassesSignal;
    if entries != [] {
      TradesAtEntries(candles, args, entries[1..]);
    }
  }

  /** Trades enter at passing bars of the range, in order, each no earlier than the exit before it. */
  lemma TradesNeverOverlap(candles: seq<Candle>, args: Args, startIndex: nat, endIndex: int)
    ensures var s := Simulated(candles, args, startIndex, endIndex);
            && (forall k :: 0 <= k < |s| ==> startIndex <= s[k].entry <= endIndex)
            && (forall k :: 0 <= k < |s| ==> s[k].entry < |candles| && PassesSignal(candles, s[k].entry, args.signal))
            && (forall j, k :: 0 <= j < k < |s| ==> s[j].exit <= s[k].entry && s[j].entry < s[k].entry)
  {
    var entries := SimulatedEntries(candles, args, startIndex, endIndex);
    TradesAtEntries(candles, args, entries);
    Greedy.ChosenFollow(Signals(candles, args.signal), Exits(candles, args), FirstIndex(args, startIndex),
                        StopIndex(candles, args, endIndex), startIndex);
  }

  // ---------------------------------------------------------------------------------------------
  // What a trade pays, in prices

  /** The unrealized result at bar `c` of a position opened at `entry`, before fees. */
  function GrossKrw(candles: seq<Candle>, args: Args, entry: nat, c: nat): real
    requires entry < |candles| && c < |candles|
  {
    args.notionalKrw * (candles[c].close - candles[entry].close) / candles[entry].close
  }

  /** `best` is the best bar up to `c`, it made at least the minimum, and since then at least the fixed amount and the
      share of the notional have been lost. */
  ghost predicate FallsFrom(candles: seq<Candle>, args: Args, p: Protect, entry: nat, best: nat, c: nat)
    requires entry < |candles| && c < |candles|
  {
    && entry < best <= c
    && (forall b :: entry < b <= c ==> GrossKrw(candles, args, entry, b) <= GrossKrw(candles, args, entry, best))
    && GrossKrw(candles, args, entry, best) >= p.minPeakKrw
    && var fall := GrossKrw(candles, args, entry, best) - GrossKrw(candles, args, entry, c);
       fall >= p.minDrawdownKrw && fall >= args.notionalKrw * p.drawdownBps / 10_000.0
  }

  /** At bar `c` the position, still in profit, has fallen too far from its best bar. */
  ghost predicate ProtectsAt(candles: seq<Candle>, args: Args, p: Protect, entry: nat, c: nat)
    requires entry < |candles| && c < |candles|
  {
    GrossKrw(candles, args, entry, c) > 0.0 && exists best :: FallsFrom(candles, args, p, entry, best, c)
  }

  lemma MarkIsGross(candles: seq<Candle>, args: Args, entry: nat, c: nat)
    requires entry < |candles| && c < |candles|
    ensures MarkPnl(candles, args, entry, c) == GrossKrw(candles, args, entry, c)
  {
    ReturnOverEntry(args.notionalKrw, candles[c].close, candles[entry].close);
  }

  lemma ReturnOverEntry(n: real, to: real, from: Pos)
    ensures n * (to / from - 1.0) == n * (to - from) / from
  {
    var x := to / from;
    assert to == x * from;
    assert to - from == (x - 1.0) * from;
    assert n * (to - from) == n * (x - 1.0) * from;
  }

  lemma GivesBackInPrices(candles: seq<Candle>, args: Args, p: Protect, entry: nat, j: nat)
    requires entry + args.holdBars < |candles| && j < args.holdBars
    ensures GivesBack(p, DrawdownThreshold(args, p), Marks(candles, args, entry), j)
       <==> ProtectsAt(candles, args, p, entry, entry + 1 + j)
  {
    hide MarkPnl, GrossKrw, DrawdownThreshold;
    var marks, threshold := Marks(candles, args, entry), DrawdownThreshold(args, p);
    ThresholdIsLarger(args, p);
    forall i | 0 <= i < args.holdBars ensures marks[i] == GrossKrw(candles, args, entry, entry + 1 + i) {
      MarkIsGross(candles, args, entry, entry + 1 + i);
    }
    forall b | entry < b <= entry + 1 + j ensures marks[b - entry - 1] == GrossKrw(candles, args, entry, b) {
    }
    if GivesBack(p, threshold, marks, j) {
      var peak :| IsPeakMark(marks, j, peak) && peak >= p.minPeakKrw && marks[j] > 0.0 && marks[j] - peak <= -threshold;
      var i :| 0 <= i <= j && marks[i] == peak;
      var best := entry + 1 + i;
      assert entry < best <= entry + 1 + j && GrossKrw(candles, args, entry, best) == peak;
      assert FallsFrom(candles, args, p, entry, best, entry + 1 + j);
    }
    if ProtectsAt(candles, args, p, entry, entry + 1 + j) {
      var best: nat :| FallsFrom(candles, args, p, entry, best, entry + 1 + j);
      assert entry < best <= entry + 1 + j;
      var peak := marks[best - entry - 1];
      forall i | 0 <= i <= j ensures marks[i] <= peak {
        assert entry < entry + 1 + i <= entry + 1 + j;
      }
      assert IsPeakMark(marks, j, peak);
    }
  }

  lemma ThresholdIsLarger(args: Args, p: Protect)
    ensures DrawdownThreshold(args, p) == Max(p.minDrawdownKrw, args.notionalKrw * p.drawdownBps / 10_000.0)
  {
    assert args.notionalKrw * (p.drawdownBps / 10_000.0) == args.notionalKrw * p.drawdownBps / 10_000.0;
  }

  /** A protected trade exits at the first bar of its hold that calls for it; any other has no such bar, and exits at
      the end of the hold. */
  ghost predicate ExitsRight(candles: seq<Candle>, args: Args, t: Trade)
    requires t.entry + args.holdBars < |candles|
  {
    && t.entry <= t.exit <= t.entry + args.holdBars
    && (t.protected ==>
          && args.protect.Some? && t.entry < t.exit
          && ProtectsAt(candles, args, args.protect.value, t.entry, t.exit)
          && forall c :: t.entry < c < t.exit ==> !ProtectsAt(candles, args, args.protect.value, t.entry, c))
    && (!t.protected ==>
          && t.exit == t.entry + args.holdBars
          && (args.protect.Some? ==>
                forall c :: t.entry < c <= t.exit ==> !ProtectsAt(candles, args, args.protect.value, t.entry, c)))
  }

  /** The result is the notional's share of the price change less the round-trip fee; with a positive notional it is a
      gain iff the exit price exceeds the entry price by more than the fee. */
  ghost predicate PaysRight(candles: seq<Candle>, args: Args, t: Trade)
    requires t.entry < |candles| && t.exit < |candles|
  {
    && var from, to := candles[t.entry].close, candles[t.exit].close;
    && t.entryAt == candles[t.entry].ts && t.exitAt == candles[t.exit].ts
    && (t.pnlKrw + args.notionalKrw * args.feeRate) * from == args.notionalKrw * (to - from)
    && t.pnlKrw == args.notionalKrw * t.netReturn
    && (args.notionalKrw > 0.0 ==> (t.pnlKrw > 0.0 <==> to > from * (1.0 + args.feeRate)))
  }

  lemma TradeExitsRight(candles: seq<Candle>, args: Args, entry: nat)
    requires entry + args.holdBars < |candles|
    ensures TradeAt(candles, args, entry).entry == entry
    ensures ExitsRight(candles, args, TradeAt(candles, args, entry))
  {
    hide ProtectsAt, GivesBack, ProtectFrom, MarkPnl;
    if args.protect.Some? {
      var p := args.protect.value;
      EarlyExitIsFirstGiveBack(candles, args, entry);
      forall c | entry < c <= entry + args.holdBars
        ensures ProtectsAt(candles, args, p, entry, c)
           <==> GivesBack(p, DrawdownThreshold(args, p), Marks(candles, args, entry), c - entry - 1)
      {
        GivesBackInPrices(candles, args, p, entry, c - entry - 1);
      }
    }
  }

  lemma TradePaysRight(candles: seq<Candle>, args: Args, entry: nat, exit: nat, protected: bool)
    requires entry < |candles| && exit < |candles|
    ensures PaysRight(candles, args, TradeOf(candles, args, entry, exit, protected))
  {
    NetResult(args.notionalKrw, args.feeRate, candles[entry].close, candles[exit].close);
  }

  /** Every trade of a simulation exits and pays as it should. */
  lemma TradesPayOff(candles: seq<Candle>, args: Args, startIndex: nat, endIndex: int, k: nat)
    requires k < |Simulated(candles, args, startIndex, endIndex)|
    ensures var t := Simulated(candles, args, startIndex, endIndex)[k];
            && t.entry + args.holdBars < |candles|
            && ExitsRight(candles, args, t)
            && PaysRight(candles, args, t)
  {
    hide ExitsRight, PaysRight, TradeOf, ExitAt, EarlyExit;
    var entries := SimulatedEntries(candles, args, startIndex, endIndex);
    TradesAtEntries(candles, args, entries);
    var entry := entries[k];
    TradeExitsRight(candles, args, entry);
    TradePaysRight(candles, args, entry, ExitAt(candles, args, entry), EarlyExit(candles, args, entry).Some?);
  }

  /** The bars at which an entry is looked for: those of the range, with a full lookback and 24 bars before them and a
      full hold after them. */
  lemma RangeIsExact(candles: seq<Candle>, args: Args, startIndex: nat, endIndex: int, i: nat)
    ensures FirstIndex(args, startIndex) <= i < StopIndex(candles, args, endIndex)
       <==> startIndex <= i <= endIndex && i >= 24 && i >= args.signal.lookback && i + args.holdBars < |candles|
  {
  }

  function EntriesThrough(trades: seq<Trade>, k: int): seq<nat> {
    if trades == [] then []
    else (if trades[0].entry <= k then [trades[0].entry] else []) + EntriesThrough(trades[1..], k)
  }

  /** The trades that have exited at or before `k`. */
  function ExitedThrough(trades: seq<Trade>, k: int): seq<Trade> {
    if trades == [] then []
    else (if trades[0].exit <= k then [trades[0]] else []) + ExitedThrough(trades[1..], k)
  }

  lemma {:induction false} PeakIsCausal(a: seq<real>, b: seq<real>, j: nat)
    requires j < |a| && j < |b| && forall c :: 0 <= c <= j ==> a[c] == b[c]
    ensures PeakMark(a, j) == PeakMark(b, j)
  {
    if j > 0 {
      PeakIsCausal(a, b, j - 1);
    }
  }

  /** Marks that agree before `m` either trigger at the same mark before `m`, or neither triggers before `m`. */
  lemma {:induction false} ProtectIsCausal(p: Protect, threshold: real, a: seq<real>, b: seq<real>, j: nat, m: int)
    requires |a| == |b| && j <= |a| && forall c :: 0 <= c < m && c < |a| ==> a[c] == b[c]
    ensures var r, s := ProtectFrom(p, threshold, a, j), ProtectFrom(p, threshold, b, j);
            r == s || ((r.Some? ==> m <= r.value) && (s.Some? ==> m <= s.value) && m < |a|)
    decreases |a| - j
  {
    if j < |a| && j < m {
      PeakIsCausal(a, b, j);
      ProtectIsCausal(p, threshold, a, b, j + 1, m);
    }
  }

  lemma MarksAgree(a: seq<Candle>, b: seq<Candle>, args: Args, entry: nat, k: int)
    requires AgreeThrough(a, b, k) && entry <= k && entry + args.holdBars < |a|
    ensures forall c :: 0 <= c < k - entry && c < args.holdBars ==> Marks(a, args, entry)[c] == Marks(b, args, entry)[c]
  {
    forall c | 0 <= c < k - entry && c < args.holdBars
      ensures Marks(a, args, entry)[c] == Marks(b, args, entry)[c]
    {
      MarkAgrees(a, b, args, entry, entry + 1 + c);
    }
  }

  lemma MarkAgrees(a: seq<Candle>, b: seq<Candle>, args: Args, entry: nat, cursor: nat)
    requires entry < |a| == |b| && cursor < |a| && a[entry] == b[entry] && a[cursor] == b[cursor]
    ensures MarkPnl(a, args, entry, cursor) == MarkPnl(b, args, entry, cursor)
  {
  }

  /** Either both series exit at the same bar no later than `k`, or both exit after `k`. */
  lemma ExitIsCausal(a: seq<Candle>, b: seq<Candle>, args: Args, entry: nat, k: int)
    requires AgreeThrough(a, b, k) && entry <= k && entry + args.holdBars < |a|
    ensures var x, y := ExitAt(a, args, entry), ExitAt(b, args, entry);
            x == y || (k < x && k < y)
    ensures ExitAt(a, args, entry) <= k ==> EarlyExit(a, args, entry) == EarlyExit(b, args, entry)
  {
    hide MarkPnl, DrawdownThreshold;
    if args.protect.Some? {
      var p := args.protect.value;
      MarksAgree(a, b, args, entry, k);
      ProtectIsCausal(p, DrawdownThreshold(args, p), Marks(a, args, entry), Marks(b, args, entry), 0, k - entry);
    }
  }

  lemma TradeIsCausal(a: seq<Candle>, b: seq<Candle>, args: Args, entry: nat, k: int)
    requires AgreeThrough(a, b, k) && entry + args.holdBars < |a| && ExitAt(a, args, entry) <= k
    ensures TradeAt(a, args, entry) == TradeAt(b, args, entry)
  {
    hide ExitAt, EarlyExit;
    ExitIsCausal(a, b, args, entry, k);
    assert a[entry] == b[entry] && a[ExitAt(a, args, entry)] == b[ExitAt(a, args, entry)];
  }

  lemma InputsAgree(a: seq<Candle>, b: seq<Candle>, args: Args, stop: nat, k: int)
    requires AgreeThrough(a, b, k) && stop <= Limit(a, args)
    ensures Greedy.SameThrough(Signals(a, args.signal), Exits(a, args),
                               Signals(b, args.signal), Exits(b, args), stop, k)
  {
    forall e | 0 <= e < stop && e <= k
      ensures Signals(a, args.signal)[e] == Signals(b, args.signal)[e]
      ensures var x, y := Exits(a, args)[e], Exits(b, args)[e]; x == y || (k < x && k < y)
    {
      hide PassesSignal, ExitAt;
      SignalIsCausal(a, b, e, args.signal);
      ExitIsCausal(a, b, args, e, k);
    }
  }

  lemma {:induction false} FiltersCommute(candles: seq<Candle>, args: Args, entries: seq<nat>, k: int)
    requires forall j :: 0 <= j < |entries| ==> entries[j] < Limit(candles, args)
    ensures EntriesThrough(TradesAt(candles, args, entries), k) == Greedy.Through(entries, k)
    ensures forall e :: e in Greedy.ExitedThrough(entries, Exits(candles, args), k) ==> e in entries
    ensures var exited := Greedy.ExitedThrough(entries, Exits(candles, args), k);
            && (forall j :: 0 <= j < |exited| ==>
                  exited[j] < Limit(candles, args) && Exits(candles, args)[exited[j]] <= k)
            && ExitedThrough(TradesAt(candles, args, entries), k) == TradesAt(candles, args, exited)
  {
    if entries != [] {
      FiltersCommute(candles, args, entries[1..], k);
      var t, rest := TradeAt(candles, args, entries[0]), TradesAt(candles, args, entries[1..]);
      assert ([t] + rest)[1..] == rest;
      var later := Greedy.ExitedThrough(entries[1..], Exits(candles, args), k);
      assert ([entries[0]] + later)[1..] == later;
      assert [] + later == later;
    }
  }

  lemma {:induction false} ExitedTradesAgree(a: seq<Candle>, b: seq<Candle>, args: Args, entries: seq<nat>, k: int)
    requires AgreeThrough(a, b, k)
    requires forall j :: 0 <= j < |entries| ==> entries[j] < Limit(a, args) && Exits(a, args)[entries[j]] <= k
    ensures TradesAt(a, args, entries) == TradesAt(b, args, entries)
  {
    if entries != [] {
      hide TradeAt, ExitAt;
      assert Exits(a, args)[entries[0]] == ExitAt(a, args, entries[0]);
      TradeIsCausal(a, b, args, entries[0], k);
      ExitedTradesAgree(a, b, args, entries[1..], k);
    }
  }

  lemma EntriesAreCausal(a: seq<Candle>, b: seq<Candle>, args: Args, startIndex: nat, endIndex: int, k: int)
    requires AgreeThrough(a, b, k)
    ensures var s := SimulatedEntries(a, args, startIndex, endIndex);
            var t := SimulatedEntries(b, args, startIndex, endIndex);
            && (forall j :: 0 <= j < |s| ==> s[j] < Limit(a, args))
            && (forall j :: 0 <= j < |t| ==> t[j] < Limit(b, args))
            && Greedy.Through(s, k) == Greedy.Through(t, k)
            && Greedy.ExitedThrough(s, Exits(a, args), k) == Greedy.ExitedThrough(t, Exits(b, args), k)
  {
    hide Greedy.Through, Greedy.ExitedThrough, Greedy.Chosen, PassesSignal, ExitAt;
    var i, stop := FirstIndex(args, startIndex), StopIndex(a, args, endIndex);
    InputsAgree(a, b, args, stop, k);
    Greedy.ChoiceIsCausal(Signals(a, args.signal), Exits(a, args), Signals(b, args.signal), Exits(b, args),
                          i, stop, startIndex, k);
  }

  /** Simulation is causal, profit-protecting exits included: two series of equal length that agree through
      bar `k` give the same entries at or before `k` and the same trades exiting at or before `k`. */
  lemma SimulationIsCausal(a: seq<Candle>, b: seq<Candle>, args: Args, startIndex: nat, endIndex: int, k: int)
    requires AgreeThrough(a, b, k)
    ensures var s, t := Simulated(a, args, startIndex, endIndex), Simulated(b, args, startIndex, endIndex);
            EntriesThrough(s, k) == EntriesThrough(t, k) && ExitedThrough(s, k) == ExitedThrough(t, k)
  {
    hide Limit, SimulatedEntries, TradesAt, ExitAt, EntriesThrough, ExitedThrough, AgreeThrough;
    hide Greedy.Through, Greedy.ExitedThrough;
    EntriesAreCausal(a, b, args, startIndex, endIndex, k);
    var s, t := SimulatedEntries(a, args, startIndex, endIndex), SimulatedEntries(b, args, startIndex, endIndex);
    FiltersCommute(a, args, s, k);
    FiltersCommute(b, args, t, k);
    ExitedTradesAgree(a, b, args, Greedy.ExitedThrough(s, Exits(a, args), k), k);
  }

  // ---------------------------------------------------------------------------------------------
  // The fixed hold is the greedy choice

  /** Without protection the simulator takes as many trades as any choice of passing bars of its range at
      least `holdBars` apart, and its k-th entry is never later than the k-th of that choice. */
  lemma FixedHoldIsOptimal(candles: seq<Candle>, args: Args, startIndex: nat, endIndex: int, rival: seq<nat>)
    requires args.protect.None?
    requires Greedy.IsRival(Signals(candles, args.signal), args.holdBars, FirstIndex(args, startIndex),
                            StopIndex(candles, args, endIndex), rival)
    ensures var s := Simulated(candles, args, startIndex, endIndex);
            |rival| <= |s| && forall k :: 0 <= k < |rival| ==> s[k].entry <= rival[k]
  {
    var i, stop := FirstIndex(args, startIndex), StopIndex(candles, args, endIndex);
    FixedHoldIsGreedy(candles, args, i, stop, startIndex);
    Greedy.GreedyStaysAhead(Signals(candles, args.signal), args.holdBars, i, stop, startIndex, rival);
    TradesAtEntries(candles, args, SimulatedEntries(candles, args, startIndex, endIndex));
  }

  lemma FixedHoldIsGreedy(candles: seq<Candle>, args: Args, i: nat, stop: nat, next: int)
    requires stop <= Limit(candles, args) && args.protect.None?
    ensures EntriesFrom(candles, args, i, stop, next)
         == Greedy.Entries(Signals(candles, args.signal), args.holdBars, i, stop, next)
  {
    forall e | 0 <= e < stop ensures Exits(candles, args)[e] == e + args.holdBars {
    }
    Greedy.FixedExitsAreGreedy(Signals(candles, args.signal), Exits(candles, args), args.holdBars, i, stop, next);
  }
}
