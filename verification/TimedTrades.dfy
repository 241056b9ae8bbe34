/** Which trades the book-based simulators take, and what each of them pays. */
module TimedTrades {
  import opened Basics
  import opened RealArithmetic
  import opened Lookups
  import opened TimedSimulators
  import opened TimedCausality

  // ---------------------------------------------------------------------------------------------
  // The loop over candidates

  /** The candidate passes and both books come: the first ones from its time and from the end of its hold. */
  ghost predicate Opens(books: seq<Book>, c: Candidate, hold: int, taken: Taken) {
    && c.passes && taken.at == c.at
    && IsFirstBook(books, c.at, taken.entry) && IsFirstBook(books, c.at + hold, taken.exit)
  }

  /** A book at or after `t` exists. */
  ghost predicate Reached(books: seq<Book>, t: int) {
    exists b :: b in books && b.ts >= t
  }

  /** At `t` a trade is open, or the trade opened at `t` itself is there. */
  ghost predicate Occupied(taken: seq<Taken>, t: int) {
    exists k :: 0 <= k < |taken| && taken[k].at <= t && (taken[k].at == t || t < taken[k].exit.ts)
  }

  lemma BooksFound(books: seq<Book>, t: int)
    requires SortedBy(books, BookTs)
    ensures BookAt(books, t).Some? <==> Reached(books, t)
    ensures BookAt(books, t).Some? ==> IsFirstBook(books, t, BookAt(books, t).value)
  {
    hide BookAt;
    BookAtIsFirst(books, t);
    if BookAt(books, t).Some? {
      assert BookAt(books, t).value in books;
    }
  }

  /** Every trade taken is opened by a passing candidate on its first books. */
  lemma {:induction false} TakenIsOpened(
    books: seq<Book>, candidates: seq<Candidate>, hold: int, until: Option<int>, k: nat)
    requires SortedBy(books, BookTs) && k < |TakenFrom(books, candidates, hold, until)|
    ensures exists j :: && 0 <= j < |candidates|
                        && Opens(books, candidates[j], hold, TakenFrom(books, candidates, hold, until)[k])
  {
    hide BookAt, IsFirstBook, SortedBy;
    var c, rest := candidates[0], candidates[1..];
    var entry, exit := BookAt(books, c.at), BookAt(books, c.at + hold);
    BooksFound(books, c.at);
    BooksFound(books, c.at + hold);
    var taken := TakenFrom(books, candidates, hold, until);
    if !Blocked(c.at, until) && c.passes && entry.Some? && exit.Some? {
      if k == 0 {
        assert Opens(books, candidates[0], hold, taken[0]);
      } else {
        TakenIsOpened(books, rest, hold, Some(exit.value.ts), k - 1);
        var j :| 0 <= j < |rest| && Opens(books, rest[j], hold, taken[k]);
        assert candidates[j + 1] == rest[j];
      }
    } else {
      TakenIsOpened(books, rest, hold, until, k);
      var j :| 0 <= j < |rest| && Opens(books, rest[j], hold, taken[k]);
      assert candidates[j + 1] == rest[j];
    }
  }

  /** No passing candidate whose books come is left out, except while a trade is open. */
  lemma {:induction false} NoneIsMissed(
    books: seq<Book>, candidates: seq<Candidate>, hold: int, until: Option<int>, j: nat)
    requires SortedBy(books, BookTs) && SortedBy(candidates, CandidateTs) && hold >= 0
    requires j < |candidates| && candidates[j].passes && Reached(books, candidates[j].at + hold)
    ensures Blocked(candidates[j].at, until) || Occupied(TakenFrom(books, candidates, hold, until), candidates[j].at)
  {
    hide BookAt, SortedBy, Reached;
    TailSorted(candidates, CandidateTs);
    assert CandidateTs(candidates[0]) <= CandidateTs(candidates[j]);
    var c, rest, t := candidates[0], candidates[1..], candidates[j].at;
    BooksFound(books, t + hold);
    BooksInOrder(books, t, t + hold);
    var entry, exit := BookAt(books, c.at), BookAt(books, c.at + hold);
    var taken := TakenFrom(books, candidates, hold, until);
    if !Blocked(c.at, until) && c.passes && entry.Some? && exit.Some? {
      assert taken[0] == Taken(c.at, entry.value, exit.value);
      if j == 0 || t < exit.value.ts {
        assert Occupied(taken, t);
      } else {
        NoneIsMissed(books, rest, hold, Some(exit.value.ts), j - 1);
        OccupiedLater(taken, t);
      }
    } else if j > 0 {
      NoneIsMissed(books, rest, hold, until, j - 1);
    }
  }

  lemma OccupiedLater(taken: seq<Taken>, t: int)
    requires taken != [] && Occupied(taken[1..], t)
    ensures Occupied(taken, t)
  {
    var k :| 0 <= k < |taken[1..]| && taken[1..][k].at <= t && (taken[1..][k].at == t || t < taken[1..][k].exit.ts);
    assert taken[k + 1] == taken[1..][k];
  }

  // ---------------------------------------------------------------------------------------------
  // What a trade pays

  /** Bought at the entry's ask, sold at the exit's bid: the notional's share of the price change less the fee; with a
      positive notional a gain iff the bid exceeds the ask by more than the fee. */
  ghost predicate PaysRight(entry: Book, exit: Book, notionalKrw: real, feeRate: real, t: Trade) {
    && t.exitAt == exit.ts && t.entryAsk == entry.ask && t.exitBid == exit.bid
    && (t.pnlKrw + notionalKrw * feeRate) * entry.ask == notionalKrw * (exit.bid - entry.ask)
    && (notionalKrw > 0.0 ==> (t.pnlKrw > 0.0 <==> exit.bid > entry.ask * (1.0 + feeRate)))
  }

  lemma TradePaysRight(entry: Book, exit: Book, entryAt: int, notionalKrw: real, feeRate: real)
    ensures PaysRight(entry, exit, notionalKrw, feeRate, TradeOn(entry, exit, entryAt, notionalKrw, feeRate))
  {
    NetResult(notionalKrw, feeRate, entry.ask, exit.bid);
  }

  // ---------------------------------------------------------------------------------------------
  // Lead-lag

  /** The trade of a passing signal: entered at the first book once the signal's bar is complete, exited at the first
      one a number of bars later. */
  ghost predicate LeadLagOpens(books: seq<Book>, s: Signal, args: LeadLagArgs, t: Trade) {
    && s.passes
    && exists entry, exit ::
         && IsFirstBook(books, s.at + args.intervalMs, entry)
         && IsFirstBook(books, s.at + args.intervalMs + args.holdBars * args.intervalMs, exit)
         && t.entryAt == entry.ts && PaysRight(entry, exit, args.notionalKrw, args.feeRate, t)
  }

  function LeadLagTradeOf(t: Taken, args: LeadLagArgs): Trade {
    TradeOn(t.entry, t.exit, t.entry.ts, args.notionalKrw, args.feeRate)
  }

  lemma {:induction false} LeadLagOfAt(taken: seq<Taken>, args: LeadLagArgs)
    ensures |LeadLagOf(taken, args)| == |taken|
    ensures forall k :: 0 <= k < |taken| ==>
              LeadLagOf(taken, args)[k] == LeadLagTradeOf(taken[k], args)
  {
    hide TradeOn;
    if taken != [] {
      LeadLagOfAt(taken[1..], args);
    }
  }

  lemma {:induction false} LeadLagCandidatesAt(signals: seq<Signal>, args: LeadLagArgs)
    ensures |LeadLagCandidates(signals, args)| == |signals|
    ensures forall j :: 0 <= j < |signals| ==>
              LeadLagCandidates(signals, args)[j] == Candidate(signals[j].at + args.intervalMs, signals[j].passes)
  {
    if signals != [] {
      LeadLagCandidatesAt(signals[1..], args);
    }
  }

  lemma LeadLagTradeOpens(books: seq<Book>, s: Signal, args: LeadLagArgs, taken: Taken)
    requires Opens(books, Candidate(s.at + args.intervalMs, s.passes), Hold(args), taken)
    ensures LeadLagOpens(books, s, args, LeadLagTradeOf(taken, args))
  {
    hide IsFirstBook, TradeOn, PaysRight;
    TradePaysRight(taken.entry, taken.exit, taken.entry.ts, args.notionalKrw, args.feeRate);
    TradeTimes(taken.entry, taken.exit, taken.entry.ts, args.notionalKrw, args.feeRate);
  }

  /** Every lead-lag trade is that of a passing signal. */
  lemma LeadLagTradeIsOpened(books: seq<Book>, signals: seq<Signal>, args: LeadLagArgs, k: nat)
    requires SortedBy(books, BookTs) && k < |LeadLagTrades(books, signals, args, None)|
    ensures exists j :: && 0 <= j < |signals|
                        && LeadLagOpens(books, signals[j], args, LeadLagTrades(books, signals, args, None)[k])
  {
    hide TakenFrom, Opens, LeadLagOpens, TradeOn, LeadLagTrades, LeadLagOf;
    var candidates := LeadLagCandidates(signals, args);
    var taken := TakenFrom(books, candidates, Hold(args), None);
    LeadLagIsTaken(books, signals, args, None);
    LeadLagOfAt(taken, args);
    LeadLagCandidatesAt(signals, args);
    TakenIsOpened(books, candidates, Hold(args), None, k);
    var j :| 0 <= j < |candidates| && Opens(books, candidates[j], Hold(args), taken[k]);
    LeadLagTradeOpens(books, signals[j], args, taken[k]);
  }

  /** A trade of a signal no later than `t` is still open when the bar of `t` is complete, or is the one of `t`. */
  ghost predicate LeadLagOccupied(
    books: seq<Book>, signals: seq<Signal>, args: LeadLagArgs, trades: seq<Trade>, t: int)
  {
    exists j, k ::
      && 0 <= j < |signals| && 0 <= k < |trades| && LeadLagOpens(books, signals[j], args, trades[k])
      && signals[j].at <= t && (signals[j].at == t || t + args.intervalMs < trades[k].exitAt)
  }

  /** And no passing signal whose exit book comes is left out, except while a trade is open. */
  lemma NoLeadLagSignalIsMissed(books: seq<Book>, signals: seq<Signal>, args: LeadLagArgs, i: nat)
    requires SortedBy(books, BookTs) && SortedBy(signals, SignalTs) && i < |signals| && signals[i].passes
    requires Reached(books, signals[i].at + args.intervalMs + args.holdBars * args.intervalMs)
    ensures LeadLagOccupied(books, signals, args, LeadLagTrades(books, signals, args, None), signals[i].at)
  {
    hide TakenFrom, Opens, LeadLagOpens, TradeOn, LeadLagTrades, LeadLagOf, Reached, SortedBy;
    var candidates := LeadLagCandidates(signals, args);
    var taken := TakenFrom(books, candidates, Hold(args), None);
    HoldIsForward(args);
    LeadLagIsTaken(books, signals, args, None);
    LeadLagOfAt(taken, args);
    LeadLagCandidatesAt(signals, args);
    SignalsAreCandidates(signals, args, 0);
    NoneIsMissed(books, candidates, Hold(args), None, i);
    var t := signals[i].at + args.intervalMs;
    var k :| 0 <= k < |taken| && taken[k].at <= t && (taken[k].at == t || t < taken[k].exit.ts);
    TakenIsOpened(books, candidates, Hold(args), None, k);
    var j :| 0 <= j < |candidates| && Opens(books, candidates[j], Hold(args), taken[k]);
    LeadLagTradeOpens(books, signals[j], args, taken[k]);
    OpenedTimes(books, candidates[j], Hold(args), taken[k]);
    TradeTimes(taken[k].entry, taken[k].exit, taken[k].entry.ts, args.notionalKrw, args.feeRate);
  }

  lemma OpenedTimes(books: seq<Book>, c: Candidate, hold: int, taken: Taken)
    requires Opens(books, c, hold, taken)
    ensures taken.at == c.at
  {
  }

  // ---------------------------------------------------------------------------------------------
  // Order flow

  /** `b` is the last snapshot at or before `t`. */
  ghost predicate IsLastBy(snapshots: seq<Snapshot>, t: int, b: Snapshot) {
    exists i ::
      && 0 <= i < |snapshots| && snapshots[i] == b && b.ts <= t
      && forall j :: i < j < |snapshots| ==> snapshots[j].ts > t
  }

  /** Enough of the window is covered and the market is traded enough. */
  predicate Solid(s: Snapshot) {
    s.coverageSec >= 55.0 && s.turnover24h >= 30_000_000_000.0
  }

  /** The book recovers from a fall: the return is back up by the minimum, buyers are there, and spread and depth are no
      worse than at the base. */
  predicate Recovers(args: FlowArgs, base: Snapshot, s: Snapshot) {
    && Solid(base) && base.ret5mBps <= -args.minRet5mBps
    && s.ret5mBps - base.ret5mBps >= args.minRecoveryBps
    && s.buyShare >= args.minBuyShare
    && s.spreadBps <= base.spreadBps && s.depthRatio >= base.depthRatio
  }

  /** The snapshot calls for a trade. After a fall an absorption needs buyers and a reversion sellers. */
  ghost predicate Calls(snapshots: seq<Snapshot>, args: FlowArgs, s: Snapshot) {
    && Solid(s) && s.depthRatio >= args.minDepthRatio && s.spreadBps <= args.maxSpreadBps
    && match args.mode
       case Recovery => exists b :: IsLastBy(snapshots, s.ts - args.recoveryLookbackMs, b) && Recovers(args, b, s)
       case Reversion => s.ret5mBps <= -args.minRet5mBps && 1.0 - s.buyShare >= args.minBuyShare
       case Absorption => s.ret5mBps <= -args.minRet5mBps && s.buyShare >= args.minBuyShare
       case Continuation => s.ret5mBps >= args.minRet5mBps && s.buyShare >= args.minBuyShare
  }

  lemma {:induction false} LastIsLast<T>(items: seq<T>, at: T -> int, t: int)
    ensures var r := LastAtOrBefore(items, at, t);
            && (r.None? ==> forall j :: 0 <= j < |items| ==> at(items[j]) > t)
            && (r.Some? ==> forall j :: r.value < j < |items| ==> at(items[j]) > t)
  {
    if items != [] && at(items[|items| - 1]) > t {
      LastIsLast(items[..|items| - 1], at, t);
    }
  }

  lemma BaseIsLast(snapshots: seq<Snapshot>, args: FlowArgs, s: Snapshot, b: Snapshot)
    requires args.mode.Recovery?
    ensures RecoveryBase(snapshots, args, s) == Some(b) <==> IsLastBy(snapshots, s.ts - args.recoveryLookbackMs, b)
  {
    var t := s.ts - args.recoveryLookbackMs;
    LastIsLast(snapshots, SnapshotTs, t);
    var r := LastAtOrBefore(snapshots, SnapshotTs, t);
    if IsLastBy(snapshots, t, b) {
      var i :|
        && 0 <= i < |snapshots| && snapshots[i] == b && b.ts <= t
        && forall j :: i < j < |snapshots| ==> snapshots[j].ts > t;
      assert SnapshotTs(snapshots[i]) <= t;
      assert r.Some? && r.value == i;
    }
  }

  lemma PassesIffCalls(snapshots: seq<Snapshot>, args: FlowArgs, s: Snapshot)
    ensures Passes(s, args, RecoveryBase(snapshots, args, s)) <==> Calls(snapshots, args, s)
  {
    hide RecoveryBase, IsLastBy;
    if args.mode.Recovery? {
      var t, base := s.ts - args.recoveryLookbackMs, RecoveryBase(snapshots, args, s);
      if base.Some? {
        BaseIsLast(snapshots, args, s, base.value);
        assert Recovers(args, base.value, s) && Passes(s, args, base) ==> Calls(snapshots, args, s);
      }
      if Calls(snapshots, args, s) {
        var b :| IsLastBy(snapshots, t, b) && Recovers(args, b, s);
        BaseIsLast(snapshots, args, s, b);
      }
    }
  }

  /** The trade of a snapshot that calls for one: entered at the first book from then on, exited at the first one a
      horizon later. */
  ghost predicate FlowOpens(snapshots: seq<Snapshot>, books: seq<Book>, s: Snapshot, args: FlowArgs, t: Trade) {
    && Calls(snapshots, args, s)
    && exists entry, exit ::
         && IsFirstBook(books, s.ts, entry) && IsFirstBook(books, s.ts + args.horizonMs, exit)
         && t.entryAt == s.ts && PaysRight(entry, exit, args.notionalKrw, args.feeRate, t)
  }

  function FlowTradeOf(t: Taken, args: FlowArgs): Trade {
    TradeOn(t.entry, t.exit, t.at, args.notionalKrw, args.feeRate)
  }

  lemma {:induction false} FlowOfAt(taken: seq<Taken>, args: FlowArgs)
    ensures |FlowOf(taken, args)| == |taken|
    ensures forall k :: 0 <= k < |taken| ==> FlowOf(taken, args)[k] == FlowTradeOf(taken[k], args)
  {
    hide TradeOn;
    if taken != [] {
      FlowOfAt(taken[1..], args);
    }
  }

  lemma {:induction false} FlowCandidatesAt(snapshots: seq<Snapshot>, args: FlowArgs, i: nat)
    requires i <= |snapshots|
    ensures |FlowCandidates(snapshots, args, i)| == |snapshots| - i
    ensures forall j :: i <= j < |snapshots| ==>
              FlowCandidates(snapshots, args, i)[j - i] == FlowCandidate(snapshots, args, snapshots[j])
    decreases |snapshots| - i
  {
    hide Passes, RecoveryBase;
    if i < |snapshots| {
      FlowCandidatesAt(snapshots, args, i + 1);
      var all, rest := FlowCandidates(snapshots, args, i), FlowCandidates(snapshots, args, i + 1);
      forall j | i < j < |snapshots| ensures all[j - i] == FlowCandidate(snapshots, args, snapshots[j]) {
        assert all[j - i] == rest[j - (i + 1)];
      }
    }
  }

  function FlowCandidate(snapshots: seq<Snapshot>, args: FlowArgs, s: Snapshot): Candidate {
    Candidate(s.ts, Passes(s, args, RecoveryBase(snapshots, args, s)))
  }

  lemma FlowTradeOpens(snapshots: seq<Snapshot>, books: seq<Book>, s: Snapshot, args: FlowArgs, taken: Taken)
    requires Opens(books, FlowCandidate(snapshots, args, s), args.horizonMs, taken)
    ensures FlowOpens(snapshots, books, s, args, FlowTradeOf(taken, args))
  {
    hide IsFirstBook, TradeOn, PaysRight, Passes, RecoveryBase, Calls;
    PassesIffCalls(snapshots, args, s);
    TradePaysRight(taken.entry, taken.exit, taken.at, args.notionalKrw, args.feeRate);
    TradeTimes(taken.entry, taken.exit, taken.at, args.notionalKrw, args.feeRate);
  }

  /** Every order-flow trade is that of a snapshot that calls for it. */
  lemma FlowTradeIsOpened(snapshots: seq<Snapshot>, books: seq<Book>, args: FlowArgs, k: nat)
    requires SortedBy(books, BookTs) && k < |FlowTrades(snapshots, books, args, 0, None)|
    ensures var trade := FlowTrades(snapshots, books, args, 0, None)[k];
            exists j :: 0 <= j < |snapshots| && FlowOpens(snapshots, books, snapshots[j], args, trade)
  {
    hide TakenFrom, Opens, FlowOpens, TradeOn, FlowTrades, FlowOf, FlowCandidate, FlowCandidates;
    var candidates := FlowCandidates(snapshots, args, 0);
    var taken := TakenFrom(books, candidates, args.horizonMs, None);
    FlowIsTaken(snapshots, books, args, 0, None);
    FlowOfAt(taken, args);
    FlowCandidatesAt(snapshots, args, 0);
    TakenIsOpened(books, candidates, args.horizonMs, None, k);
    var j :| 0 <= j < |candidates| && Opens(books, candidates[j], args.horizonMs, taken[k]);
    assert candidates[j - 0] == FlowCandidate(snapshots, args, snapshots[j]);
    FlowTradeOpens(snapshots, books, snapshots[j], args, taken[k]);
  }

  /** A trade entered by `t` is still open then, or is the one of `t`. */
  ghost predicate FlowOccupied(trades: seq<Trade>, t: int) {
    exists k :: 0 <= k < |trades| && trades[k].entryAt <= t && (trades[k].entryAt == t || t < trades[k].exitAt)
  }

  /** And no snapshot that calls for a trade, and whose exit book comes, is left out, except while one is open. */
  lemma NoFlowCallIsMissed(snapshots: seq<Snapshot>, books: seq<Book>, args: FlowArgs, i: nat)
    requires SortedBy(books, BookTs) && SortedBy(snapshots, SnapshotTs) && args.horizonMs >= 0 && i < |snapshots|
    requires Calls(snapshots, args, snapshots[i]) && Reached(books, snapshots[i].ts + args.horizonMs)
    ensures FlowOccupied(FlowTrades(snapshots, books, args, 0, None), snapshots[i].ts)
  {
    hide TakenFrom, Calls, TradeOn, FlowTrades, FlowOf, Reached, SortedBy, FlowCandidates, Passes, RecoveryBase;
    var candidates := FlowCandidates(snapshots, args, 0);
    var taken := TakenFrom(books, candidates, args.horizonMs, None);
    FlowIsTaken(snapshots, books, args, 0, None);
    FlowOfAt(taken, args);
    FlowCandidatesAt(snapshots, args, 0);
    FlowCandidatesSorted(snapshots, args);
    PassesIffCalls(snapshots, args, snapshots[i]);
    assert candidates[i - 0] == FlowCandidate(snapshots, args, snapshots[i]);
    NoneIsMissed(books, candidates, args.horizonMs, None, i);
    var t := snapshots[i].ts;
    var k :| 0 <= k < |taken| && taken[k].at <= t && (taken[k].at == t || t < taken[k].exit.ts);
    TradeTimes(taken[k].entry, taken[k].exit, taken[k].at, args.notionalKrw, args.feeRate);
    var trade := FlowTrades(snapshots, books, args, 0, None)[k];
    assert trade.entryAt == taken[k].at && trade.exitAt == taken[k].exit.ts;
  }
}
