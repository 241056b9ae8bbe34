/** Simulators that trade on book snapshots found by time: the lead-lag simulator, the order-flow simulator
    with its moving recovery pointer, and their walk-forward folds by timestamp. */
module TimedSimulators {
  import opened Basics
  import opened Lookups
  import Greedy

  datatype Book = Book(ts: int, bid: Pos, ask: Pos)

  datatype Trade = Trade(entryAt: int, exitAt: int, entryAsk: Pos, exitBid: Pos, pnlKrw: real)

  function BookTs(b: Book): int { b.ts }

  /** `lowerBoundBook`: the first book at or after `t`. */
  function BookAt(books: seq<Book>, t: int): Option<Book> {
    var i := FirstAtOrAfter(books, BookTs, t);
    if i < |books| then Some(books[i]) else None
  }

  method LowerBoundBook(books: seq<Book>, t: int) returns (b: Option<Book>)
    requires SortedBy(books, BookTs)
    ensures b == BookAt(books, t)
  {
    var i := LowerBound(books, BookTs, t);
    b := if i < |books| then Some(books[i]) else None;
  }

  ghost predicate IsFirstBook(books: seq<Book>, t: int, b: Book) {
    b in books && t <= b.ts && forall c :: c in books && t <= c.ts ==> b.ts <= c.ts
  }

  lemma BookAtIsFirst(books: seq<Book>, t: int)
    requires SortedBy(books, BookTs)
    ensures BookAt(books, t).None? <==> forall c :: c in books ==> c.ts < t
    ensures BookAt(books, t).Some? ==> IsFirstBook(books, t, BookAt(books, t).value)
  {
    var i := FirstAtOrAfter(books, BookTs, t);
    FirstSeparates(books, BookTs, t, i);
    forall j | i <= j < |books| ensures BookTs(books[i]) <= BookTs(books[j]) {
    }
    if i < |books| {
      assert books[i] in books;
    }
  }

  // ---------------------------------------------------------------------------------------------
  // Lead-lag

  /** A candle time and whether the leader and confirmation tests pass there. */
  datatype Signal = Signal(at: int, passes: bool)

  datatype LeadLagArgs = LeadLagArgs(intervalMs: nat, holdBars: nat, notionalKrw: real, feeRate: real)

  function TradeOn(entry: Book, exit: Book, entryAt: int, notionalKrw: real, feeRate: real): Trade {
    Trade(entryAt, exit.ts, entry.ask, exit.bid, notionalKrw * (exit.bid / entry.ask - 1.0 - feeRate))
  }

  /** The trade a signal opens, if both books exist. */
  function LeadLagTrade(books: seq<Book>, args: LeadLagArgs, at: int): Option<Trade> {
    var signalAt := at + args.intervalMs;
    var entry, exit := BookAt(books, signalAt), BookAt(books, signalAt + args.holdBars * args.intervalMs);
    if entry.Some? && exit.Some? then
      Some(TradeOn(entry.value, exit.value, entry.value.ts, args.notionalKrw, args.feeRate))
    else None
  }

  predicate Blocked(t: int, until: Option<int>) {
    until.Some? && t < until.value
  }

  function LeadLagTrades(books: seq<Book>, signals: seq<Signal>, args: LeadLagArgs, until: Option<int>): seq<Trade> {
    if signals == [] then []
    else
      var s := signals[0];
      var trade := LeadLagTrade(books, args, s.at);
      if !Blocked(s.at + args.intervalMs, until) && s.passes && trade.Some? then
        [trade.value] + LeadLagTrades(books, signals[1..], args, Some(trade.value.exitAt))
      else LeadLagTrades(books, signals[1..], args, until)
  }

  method OpenLeadLag(books: seq<Book>, args: LeadLagArgs, at: int) returns (trade: Option<Trade>)
    requires SortedBy(books, BookTs)
    ensures trade == LeadLagTrade(books, args, at)
  {
    hide TradeOn, BookAt;
    trade := None;
    var signalAt := at + args.intervalMs;
    var entry := LowerBoundBook(books, signalAt);
    var exit := LowerBoundBook(books, signalAt + args.holdBars * args.intervalMs);
    if entry.Some? && exit.Some? {
      trade := Some(TradeOn(entry.value, exit.value, entry.value.ts, args.notionalKrw, args.feeRate));
    }
  }

  method SimulateLeadLag(books: seq<Book>, signals: seq<Signal>, args: LeadLagArgs) returns (trades: seq<Trade>)
    requires SortedBy(books, BookTs)
    ensures trades == LeadLagTrades(books, signals, args, None)
  {
    hide LeadLagTrade;
    trades := [];
    var blockedUntil: Option<int> := None;
    for i := 0 to |signals|
      invariant trades + LeadLagTrades(books, signals[i..], args, blockedUntil)
             == LeadLagTrades(books, signals, args, None)
    {
      assert signals[i..][0] == signals[i] && signals[i..][1..] == signals[i + 1..];
      var signalAt := signals[i].at + args.intervalMs;
      if Blocked(signalAt, blockedUntil) || !signals[i].passes {
        continue;
      }
      var trade := OpenLeadLag(books, args, signals[i].at);
      if trade.None? {
        continue;
      }
      trades := trades + [trade.value];
      blockedUntil := Some(trade.value.exitAt);
    }
  }

  /** Each trade exits no earlier than it enters, and the next one enters no earlier than that. */
  ghost predicate Sequential(trades: seq<Trade>) {
    && (forall k :: 0 <= k < |trades| ==> trades[k].entryAt <= trades[k].exitAt)
    && (forall j, k :: 0 <= j < k < |trades| ==> trades[j].exitAt <= trades[k].entryAt)
  }

  ghost predicate StartsAfter(trades: seq<Trade>, until: Option<int>) {
    forall k :: 0 <= k < |trades| ==> !Blocked(trades[k].entryAt, until)
  }

  lemma HoldIsForward(args: LeadLagArgs)
    ensures args.holdBars * args.intervalMs >= 0
  {
  }

  /** A book found for a later time is no earlier, and if there is one, there is one for the earlier time. */
  lemma BooksInOrder(books: seq<Book>, t: int, u: int)
    requires SortedBy(books, BookTs) && t <= u
    ensures BookAt(books, t).Some? ==> t <= BookAt(books, t).value.ts
    ensures BookAt(books, u).Some? ==> BookAt(books, t).Some? && BookAt(books, t).value.ts <= BookAt(books, u).value.ts
  {
    hide BookAt;
    BookAtIsFirst(books, t);
    BookAtIsFirst(books, u);
  }

  lemma TradeIsForward(books: seq<Book>, args: LeadLagArgs, at: int)
    requires SortedBy(books, BookTs) && LeadLagTrade(books, args, at).Some?
    ensures var t := LeadLagTrade(books, args, at).value;
            at + args.intervalMs <= t.entryAt <= t.exitAt
  {
    hide TradeOn, BookAt;
    var signalAt := at + args.intervalMs;
    var hold := args.holdBars * args.intervalMs;
    HoldIsForward(args);
    BooksInOrder(books, signalAt, signalAt + hold);
    TradeTimes(BookAt(books, signalAt).value, BookAt(books, signalAt + hold).value,
               BookAt(books, signalAt).value.ts, args.notionalKrw, args.feeRate);
  }

  lemma TradeTimes(entry: Book, exit: Book, entryAt: int, notionalKrw: real, feeRate: real)
    ensures TradeOn(entry, exit, entryAt, notionalKrw, feeRate).entryAt == entryAt
    ensures TradeOn(entry, exit, entryAt, notionalKrw, feeRate).exitAt == exit.ts
  {
  }

  lemma SequentialCons(t: Trade, rest: seq<Trade>, until: Option<int>)
    requires t.entryAt <= t.exitAt && !Blocked(t.entryAt, until)
    requires Sequential(rest) && StartsAfter(rest, Some(t.exitAt))
    ensures Sequential([t] + rest) && StartsAfter([t] + rest, until)
  {
    forall k | 0 <= k < |rest| ensures t.exitAt <= rest[k].entryAt {
      assert !Blocked(rest[k].entryAt, Some(t.exitAt));
    }
  }

  /** Lead-lag trades never overlap, in whatever order the signal times come. */
  lemma {:induction false} LeadLagIsSequential(
    books: seq<Book>, signals: seq<Signal>, args: LeadLagArgs, until: Option<int>)
    requires SortedBy(books, BookTs)
    ensures Sequential(LeadLagTrades(books, signals, args, until))
    ensures StartsAfter(LeadLagTrades(books, signals, args, until), until)
  {
    hide LeadLagTrade;
    if signals != [] {
      var s := signals[0];
      var trade := LeadLagTrade(books, args, s.at);
      if !Blocked(s.at + args.intervalMs, until) && s.passes && trade.Some? {
        var t := trade.value;
        TradeIsForward(books, args, s.at);
        LeadLagIsSequential(books, signals[1..], args, Some(t.exitAt));
        SequentialCons(t, LeadLagTrades(books, signals[1..], args, Some(t.exitAt)), until);
      } else {
        LeadLagIsSequential(books, signals[1..], args, until);
      }
    }
  }

  // ---------------------------------------------------------------------------------------------
  // Order flow with a recovery base

  datatype Snapshot = Snapshot(
    ts: int, ret5mBps: real, buyShare: real, depthRatio: real, spreadBps: real, coverageSec: real, turnover24h: real)

  datatype FlowMode = Recovery | Reversion | Absorption | Continuation

  datatype FlowArgs = FlowArgs(
    mode: FlowMode, minRet5mBps: real, minBuyShare: real, minDepthRatio: real, maxSpreadBps: real,
    minRecoveryBps: real, recoveryLookbackMs: int, horizonMs: int, notionalKrw: real, feeRate: real)

  function SnapshotTs(s: Snapshot): int { s.ts }

  predicate Passes(s: Snapshot, args: FlowArgs, base: Option<Snapshot>) {
    && s.depthRatio >= args.minDepthRatio
    && s.spreadBps <= args.maxSpreadBps
    && s.coverageSec >= 55.0
    && s.turnover24h >= 30_000_000_000.0
    && match args.mode
       case Recovery =>
         && base.Some?
         && base.value.coverageSec >= 55.0
         && base.value.turnover24h >= 30_000_000_000.0
         && base.value.ret5mBps <= -args.minRet5mBps
         && s.ret5mBps >= base.value.ret5mBps + args.minRecoveryBps
         && s.buyShare >= args.minBuyShare
         && s.spreadBps <= base.value.spreadBps
         && s.depthRatio >= base.value.depthRatio
       case Reversion => s.ret5mBps <= -args.minRet5mBps && s.buyShare <= 1.0 - args.minBuyShare
       case Absorption => s.ret5mBps <= -args.minRet5mBps && s.buyShare >= args.minBuyShare
       case Continuation => s.ret5mBps >= args.minRet5mBps && s.buyShare >= args.minBuyShare
  }

  /** The recovery base by a scan: the last snapshot at or before the target time. */
  function RecoveryBase(snapshots: seq<Snapshot>, args: FlowArgs, s: Snapshot): Option<Snapshot> {
    if !args.mode.Recovery? then None
    else
      var i := LastAtOrBefore(snapshots, SnapshotTs, s.ts - args.recoveryLookbackMs);
      if i.None? then None else Some(snapshots[i.value])
  }

  function FlowTrade(books: seq<Book>, args: FlowArgs, s: Snapshot): Option<Trade> {
    var entry, exit := BookAt(books, s.ts), BookAt(books, s.ts + args.horizonMs);
    if entry.Some? && exit.Some? then
      Some(TradeOn(entry.value, exit.value, s.ts, args.notionalKrw, args.feeRate))
    else None
  }

  /** The trades of the snapshots from `i` on, with the base found by scanning. */
  function FlowTrades(snapshots: seq<Snapshot>, books: seq<Book>, args: FlowArgs, i: nat, until: Option<int>)
    : seq<Trade>
    requires i <= |snapshots|
    decreases |snapshots| - i
  {
    if i == |snapshots| then []
    else
      var s := snapshots[i];
      var trade := FlowTrade(books, args, s);
      if !Blocked(s.ts, until) && Passes(s, args, RecoveryBase(snapshots, args, s)) && trade.Some? then
        [trade.value] + FlowTrades(snapshots, books, args, i + 1, Some(trade.value.exitAt))
      else FlowTrades(snapshots, books, args, i + 1, until)
  }

  /** Between two iterations the pointer is at the start, or at a snapshot not after the last target. */
  ghost predicate PointerBehind(snapshots: seq<Snapshot>, pointer: nat, target: int) {
    pointer > 0 ==> pointer < |snapshots| && snapshots[pointer].ts <= target
  }

  /** Advances the pointer to the target; it then separates the snapshots at or before the target. */
  method Advance(snapshots: seq<Snapshot>, pointer: nat, target: int) returns (moved: nat)
    requires SortedBy(snapshots, SnapshotTs) && pointer < |snapshots|
    requires PointerBehind(snapshots, pointer, target)
    ensures pointer <= moved < |snapshots|
    ensures PointerBehind(snapshots, moved, target)
    ensures LastAtOrBefore(snapshots, SnapshotTs, target)
         == if snapshots[moved].ts <= target then Some(moved) else None
  {
    moved := pointer;
    while moved + 1 < |snapshots| && snapshots[moved + 1].ts <= target
      invariant pointer <= moved < |snapshots|
      invariant PointerBehind(snapshots, moved, target)
    {
      moved := moved + 1;
    }
    forall j | moved < j < |snapshots| ensures SnapshotTs(snapshots[j]) > target {
      assert SnapshotTs(snapshots[moved + 1]) <= SnapshotTs(snapshots[j]);
    }
    if snapshots[moved].ts <= target {
      LastSeparates(snapshots, SnapshotTs, target, moved + 1);
    } else {
      LastSeparates(snapshots, SnapshotTs, target, 0);
    }
  }

  method OpenFlow(books: seq<Book>, args: FlowArgs, s: Snapshot) returns (trade: Option<Trade>)
    requires SortedBy(books, BookTs)
    ensures trade == FlowTrade(books, args, s)
  {
    hide TradeOn, BookAt;
    trade := None;
    var entry := LowerBoundBook(books, s.ts);
    var exit := LowerBoundBook(books, s.ts + args.horizonMs);
    if entry.Some? && exit.Some? {
      trade := Some(TradeOn(entry.value, exit.value, s.ts, args.notionalKrw, args.feeRate));
    }
  }

  /** One snapshot's base, moving the pointer; it is what the scan finds. */
  method MovePointer(snapshots: seq<Snapshot>, args: FlowArgs, i: nat, recoveryIndex: nat)
    returns (moved: nat, base: Option<Snapshot>)
    requires SortedBy(snapshots, SnapshotTs) && i < |snapshots| && recoveryIndex < |snapshots|
    requires PointerBehind(snapshots, recoveryIndex, snapshots[i].ts - args.recoveryLookbackMs)
    ensures recoveryIndex <= moved < |snapshots|
    ensures base == RecoveryBase(snapshots, args, snapshots[i])
    ensures i + 1 < |snapshots| ==> PointerBehind(snapshots, moved, snapshots[i + 1].ts - args.recoveryLookbackMs)
  {
    moved, base := recoveryIndex, None;
    if args.mode.Recovery? {
      var target := snapshots[i].ts - args.recoveryLookbackMs;
      moved := Advance(snapshots, recoveryIndex, target);
      if snapshots[moved].ts <= target {
        base := Some(snapshots[moved]);
      }
    }
    if i + 1 < |snapshots| {
      assert SnapshotTs(snapshots[i]) <= SnapshotTs(snapshots[i + 1]);
    }
  }

  /** The loop with one pointer for the whole run: it computes what scanning at every snapshot computes, and
      the pointer moves at most once per snapshot in total. */
  method SimulateFlow(snapshots: seq<Snapshot>, books: seq<Book>, args: FlowArgs)
    returns (trades: seq<Trade>, moves: nat)
    requires SortedBy(snapshots, SnapshotTs) && SortedBy(books, BookTs)
    ensures trades == FlowTrades(snapshots, books, args, 0, None)
    ensures moves <= |snapshots|
  {
    hide FlowTrade, Passes, RecoveryBase, PointerBehind;
    trades, moves := [], 0;
    var blockedUntil: Option<int> := None;
    var recoveryIndex := 0;
    PointerStarts(snapshots, args);
    for i := 0 to |snapshots|
      invariant recoveryIndex == moves && (snapshots != [] ==> recoveryIndex < |snapshots|)
      invariant i < |snapshots| ==> PointerBehind(snapshots, recoveryIndex, snapshots[i].ts - args.recoveryLookbackMs)
      invariant trades + FlowTrades(snapshots, books, args, i, blockedUntil)
             == FlowTrades(snapshots, books, args, 0, None)
      invariant moves <= |snapshots|
    {
      var s := snapshots[i];
      var moved, base := MovePointer(snapshots, args, i, recoveryIndex);
      recoveryIndex, moves := moved, moves + (moved - recoveryIndex);
      if Blocked(s.ts, blockedUntil) || !Passes(s, args, base) {
        continue;
      }
      var trade := OpenFlow(books, args, s);
      if trade.None? {
        continue;
      }
      trades := trades + [trade.value];
      blockedUntil := Some(trade.value.exitAt);
    }
  }

  lemma PointerStarts(snapshots: seq<Snapshot>, args: FlowArgs)
    ensures snapshots != [] ==> PointerBehind(snapshots, 0, snapshots[0].ts - args.recoveryLookbackMs)
  {
  }

  lemma FlowTradeIsForward(books: seq<Book>, args: FlowArgs, s: Snapshot)
    requires SortedBy(books, BookTs) && args.horizonMs >= 0 && FlowTrade(books, args, s).Some?
    ensures var t := FlowTrade(books, args, s).value;
            s.ts == t.entryAt <= t.exitAt
  {
    hide TradeOn;
    BookAtIsFirst(books, s.ts + args.horizonMs);
    TradeTimes(BookAt(books, s.ts).value, BookAt(books, s.ts + args.horizonMs).value,
               s.ts, args.notionalKrw, args.feeRate);
  }

  /** Order-flow trades never overlap either, for any non-negative horizon. */
  lemma {:induction false} FlowIsSequential(
    snapshots: seq<Snapshot>, books: seq<Book>, args: FlowArgs, i: nat, until: Option<int>)
    requires SortedBy(books, BookTs) && args.horizonMs >= 0 && i <= |snapshots|
    ensures Sequential(FlowTrades(snapshots, books, args, i, until))
    ensures StartsAfter(FlowTrades(snapshots, books, args, i, until), until)
    decreases |snapshots| - i
  {
    hide FlowTrade, Passes, RecoveryBase;
    if i < |snapshots| {
      var s := snapshots[i];
      var trade := FlowTrade(books, args, s);
      if !Blocked(s.ts, until) && Passes(s, args, RecoveryBase(snapshots, args, s)) && trade.Some? {
        var t := trade.value;
        FlowTradeIsForward(books, args, s);
        FlowIsSequential(snapshots, books, args, i + 1, Some(t.exitAt));
        SequentialCons(t, FlowTrades(snapshots, books, args, i + 1, Some(t.exitAt)), until);
      } else {
        FlowIsSequential(snapshots, books, args, i + 1, until);
      }
    }
  }

  // ---------------------------------------------------------------------------------------------
  // Walk-forward folds by timestamp

  const WALK_FORWARD_FOLDS := 5

  datatype Fold = Fold(count: nat, totalPnlKrw: real)

  /** Where fold `f` of the span starts; fold 5 would start where the last one ends. */
  function FoldBound(start: int, end: int, f: nat): int {
    if f >= WALK_FORWARD_FOLDS then end + 1
    else start + Greedy.FoldStart(MaxInt(1, end - start + 1), WALK_FORWARD_FOLDS, f)
  }

  predicate InFold(start: int, end: int, f: nat, entryAt: int) {
    FoldBound(start, end, f) <= entryAt < FoldBound(start, end, f + 1)
  }

  /** Number and total of the trades entered in `[from, to)`. */
  function Between(trades: seq<Trade>, from: int, to: int): Fold {
    if trades == [] then Fold(0, 0.0)
    else
      var n := |trades| - 1;
      var before := Between(trades[..n], from, to);
      if from <= trades[n].entryAt < to then Fold(before.count + 1, before.totalPnlKrw + trades[n].pnlKrw) else before
  }

  function Total(trades: seq<Trade>): real {
    if trades == [] then 0.0 else Total(trades[..|trades| - 1]) + trades[|trades| - 1].pnlKrw
  }

  function Plus(a: Fold, b: Fold): Fold {
    Fold(a.count + b.count, a.totalPnlKrw + b.totalPnlKrw)
  }

  function SumFolds(folds: seq<Fold>): Fold {
    if folds == [] then Fold(0, 0.0) else Plus(SumFolds(folds[..|folds| - 1]), folds[|folds| - 1])
  }

  /** The first `f` folds of a span. */
  function FoldsOver(trades: seq<Trade>, start: int, end: int, f: nat): seq<Fold> {
    if f == 0 then []
    else
      FoldsOver(trades, start, end, f - 1) + [Between(trades, FoldBound(start, end, f - 1), FoldBound(start, end, f))]
  }

  function Folds(trades: seq<Trade>): seq<Fold> {
    if trades == [] then []
    else FoldsOver(trades, trades[0].entryAt, trades[|trades| - 1].entryAt, WALK_FORWARD_FOLDS)
  }

  method FilterFold(trades: seq<Trade>, from: int, to: int) returns (fold: Fold)
    ensures fold == Between(trades, from, to)
  {
    var count: nat, total := 0, 0.0;
    for i := 0 to |trades|
      invariant Fold(count, total) == Between(trades[..i], from, to)
    {
      assert trades[..i + 1][..i] == trades[..i];
      if from <= trades[i].entryAt < to {
        count, total := count + 1, total + trades[i].pnlKrw;
      }
    }
    assert trades[..|trades|] == trades;
    fold := Fold(count, total);
  }

  /** `walkForwardSummary`, before rounding. */
  method WalkForward(trades: seq<Trade>) returns (folds: seq<Fold>)
    ensures folds == Folds(trades)
  {
    hide FoldBound, Between, Greedy.FoldStart;
    folds := [];
    if trades == [] {
      return;
    }
    var start, end := trades[0].entryAt, trades[|trades| - 1].entryAt;
    var span := MaxInt(1, end - start + 1);
    for fold := 0 to WALK_FORWARD_FOLDS
      invariant folds == FoldsOver(trades, start, end, fold)
    {
      var foldStart := start + Greedy.FoldStart(span, WALK_FORWARD_FOLDS, fold);
      var foldEnd :=
        if fold == WALK_FORWARD_FOLDS - 1 then end + 1
        else start + Greedy.FoldStart(span, WALK_FORWARD_FOLDS, fold + 1);
      BoundsAreComputed(start, end, fold);
      var summary := FilterFold(trades, foldStart, foldEnd);
      folds := folds + [summary];
    }
  }

  lemma BoundsAreComputed(start: int, end: int, fold: nat)
    requires fold < WALK_FORWARD_FOLDS
    ensures var span := MaxInt(1, end - start + 1);
            && FoldBound(start, end, fold) == start + Greedy.FoldStart(span, WALK_FORWARD_FOLDS, fold)
            && FoldBound(start, end, fold + 1)
            == (if fold == WALK_FORWARD_FOLDS - 1 then end + 1
                else start + Greedy.FoldStart(span, WALK_FORWARD_FOLDS, fold + 1))
  {
    hide Greedy.FoldStart;
  }

  ghost predicate EntriesInOrder(trades: seq<Trade>) {
    forall j, k :: 0 <= j < k < |trades| ==> trades[j].entryAt <= trades[k].entryAt
  }

  lemma SequentialIsInOrder(trades: seq<Trade>)
    requires Sequential(trades)
    ensures EntriesInOrder(trades)
  {
  }

  lemma FoldBoundsIncrease(start: int, end: int, f: nat)
    requires start <= end
    ensures FoldBound(start, end, 0) == start && FoldBound(start, end, WALK_FORWARD_FOLDS) == end + 1
    ensures FoldBound(start, end, f) <= FoldBound(start, end, f + 1)
  {
    Greedy.FoldStartsIncrease(end - start + 1, WALK_FORWARD_FOLDS, f);
  }

  lemma {:induction false} BetweenSplits(trades: seq<Trade>, a: int, b: int, c: int)
    requires a <= b <= c
    ensures Between(trades, a, c) == Plus(Between(trades, a, b), Between(trades, b, c))
  {
    if trades != [] {
      BetweenSplits(trades[..|trades| - 1], a, b, c);
    }
  }

  lemma {:induction false} BetweenAll(trades: seq<Trade>, a: int, b: int)
    requires forall k :: 0 <= k < |trades| ==> a <= trades[k].entryAt < b
    ensures Between(trades, a, b) == Fold(|trades|, Total(trades))
  {
    if trades != [] {
      BetweenAll(trades[..|trades| - 1], a, b);
    }
  }

  lemma {:induction false} FoldsAccumulate(trades: seq<Trade>, start: int, end: int, f: nat)
    requires start <= end
    ensures SumFolds(FoldsOver(trades, start, end, f)) == Between(trades, start, FoldBound(start, end, f))
  {
    hide FoldBound, Between;
    FoldBoundsIncrease(start, end, 0);
    if f == 0 {
      NothingBetween(trades, start);
    } else {
      FoldsAccumulate(trades, start, end, f - 1);
      BoundsOrdered(start, end, 0, f - 1);
      FoldBoundsIncrease(start, end, f - 1);
      var all := FoldsOver(trades, start, end, f);
      assert all[..|all| - 1] == FoldsOver(trades, start, end, f - 1);
      BetweenSplits(trades, start, FoldBound(start, end, f - 1), FoldBound(start, end, f));
    }
  }

  lemma {:induction false} NothingBetween(trades: seq<Trade>, a: int)
    ensures Between(trades, a, a) == Fold(0, 0.0)
  {
    if trades != [] {
      NothingBetween(trades[..|trades| - 1], a);
    }
  }

  lemma EntriesInSpan(trades: seq<Trade>, k: nat)
    requires EntriesInOrder(trades) && k < |trades|
    ensures trades[0].entryAt <= trades[k].entryAt <= trades[|trades| - 1].entryAt
  {
  }

  lemma FoldsSumToTotals(trades: seq<Trade>)
    requires trades != [] && EntriesInOrder(trades)
    ensures SumFolds(Folds(trades)) == Fold(|trades|, Total(trades))
  {
    hide FoldBound, Between, SumFolds, FoldsOver, Total, EntriesInOrder;
    var start, end := trades[0].entryAt, trades[|trades| - 1].entryAt;
    EntriesInSpan(trades, 0);
    FoldBoundsIncrease(start, end, 0);
    FoldsAccumulate(trades, start, end, WALK_FORWARD_FOLDS);
    forall k | 0 <= k < |trades| ensures start <= trades[k].entryAt < end + 1 {
      EntriesInSpan(trades, k);
    }
    BetweenAll(trades, start, end + 1);
  }

  /** There are five folds. Every trade is in exactly one of their half-open intervals, and the folds' counts and
      unrounded totals add up to the number of trades and their total. */
  ghost predicate Partitioned(trades: seq<Trade>)
    requires trades != []
  {
    && |Folds(trades)| == 5
    && SumFolds(Folds(trades)) == Fold(|trades|, Total(trades))
    && forall k :: 0 <= k < |trades| ==>
         ExactlyOneFold(trades[0].entryAt, trades[|trades| - 1].entryAt, trades[k].entryAt)
  }

  lemma FoldsLength(trades: seq<Trade>)
    requires trades != []
    ensures |Folds(trades)| == 5
  {
    hide Between, FoldBound;
    FoldsOverLength(trades, trades[0].entryAt, trades[|trades| - 1].entryAt, WALK_FORWARD_FOLDS);
  }

  lemma {:induction false} FoldsOverLength(trades: seq<Trade>, start: int, end: int, f: nat)
    ensures |FoldsOver(trades, start, end, f)| == f
  {
    if f > 0 {
      FoldsOverLength(trades, start, end, f - 1);
    }
  }

  /** The folds partition trades whose entries come in order, as those of sequential trades do. */
  lemma FoldsPartition(trades: seq<Trade>)
    requires trades != [] && EntriesInOrder(trades)
    ensures Partitioned(trades)
  {
    hide SumFolds, Folds, Total, ExactlyOneFold, EntriesInOrder;
    FoldsSumToTotals(trades);
    FoldsLength(trades);
    forall k | 0 <= k < |trades|
      ensures ExactlyOneFold(trades[0].entryAt, trades[|trades| - 1].entryAt, trades[k].entryAt)
    {
      EntriesInSpan(trades, k);
      InOneFold(trades[0].entryAt, trades[|trades| - 1].entryAt, trades[k].entryAt);
    }
  }

  ghost predicate ExactlyOneFold(start: int, end: int, t: int) {
    exists f: nat :: f < WALK_FORWARD_FOLDS && InFold(start, end, f, t) &&
      forall g: nat :: g < WALK_FORWARD_FOLDS && InFold(start, end, g, t) ==> g == f
  }

  lemma {:induction false} BoundsOrdered(start: int, end: int, f: nat, g: nat)
    requires start <= end && f <= g
    ensures FoldBound(start, end, f) <= FoldBound(start, end, g)
  {
    if f < g {
      BoundsOrdered(start, end, f, g - 1);
      FoldBoundsIncrease(start, end, g - 1);
    }
  }

  lemma InOneFold(start: int, end: int, t: int)
    requires start <= t <= end
    ensures ExactlyOneFold(start, end, t)
  {
    FoldBoundsIncrease(start, end, 0);
    var f := FindFold(start, end, t, WALK_FORWARD_FOLDS);
    forall g: nat | g < WALK_FORWARD_FOLDS && InFold(start, end, g, t) ensures g == f {
      if g < f {
        BoundsOrdered(start, end, g + 1, f);
      } else if f < g {
        BoundsOrdered(start, end, f + 1, g);
      }
    }
  }

  lemma {:induction false} FindFold(start: int, end: int, t: int, n: nat) returns (f: nat)
    requires start <= t && start <= end && 0 < n && t < FoldBound(start, end, n)
    ensures f < n && InFold(start, end, f, t)
  {
    FoldBoundsIncrease(start, end, 0);
    f := n - 1;
    if t < FoldBound(start, end, n - 1) {
      f := FindFold(start, end, t, n - 1);
    }
  }

  /** In particular for every lead-lag simulation. */
  lemma LeadLagFoldsPartition(books: seq<Book>, signals: seq<Signal>, args: LeadLagArgs)
    requires SortedBy(books, BookTs)
    ensures var trades := LeadLagTrades(books, signals, args, None);
            trades != [] ==> Partitioned(trades)
  {
    hide LeadLagTrades, Partitioned;
    var trades := LeadLagTrades(books, signals, args, None);
    LeadLagIsSequential(books, signals, args, None);
    SequentialIsInOrder(trades);
    if trades != [] {
      FoldsPartition(trades);
    }
  }

  /** And for every order-flow simulation. */
  lemma FlowFoldsPartition(snapshots: seq<Snapshot>, books: seq<Book>, args: FlowArgs)
    requires SortedBy(books, BookTs) && args.horizonMs >= 0
    ensures var trades := FlowTrades(snapshots, books, args, 0, None);
            trades != [] ==> Partitioned(trades)
  {
    hide FlowTrades, Partitioned;
    var trades := FlowTrades(snapshots, books, args, 0, None);
    FlowIsSequential(snapshots, books, args, 0, None);
    SequentialIsInOrder(trades);
    if trades != [] {
      FoldsPartition(trades);
    }
  }
}
