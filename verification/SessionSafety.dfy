/** What every run keeps: one position at a time, paired signals, a cash floor, complete accounting. */
module SessionSafety {
  import opened Basics
  import opened ExitPolicy
  import opened Eligibility
  import opened SessionPoints
  import opened SessionSpec
  import opened SessionEntries
  import opened RealArithmetic

  // ---------------------------------------------------------------------------------------------
  // Signals come in pairs

  /** A monitor that reads the signals alone. `since` is the time of the buy, unknown for a carried position. */
  datatype Holding = Flat | Held(market: string, since: Option<int>)

  /** The monitor rejects a buy while holding, and a sell while flat, of another market, or not after its buy. */
  function Accept(h: Holding, s: Signal): Option<Holding> {
    match (h, s)
    case (Flat, Buy(market, at, _, _)) => Some(Held(market, Some(at)))
    case (Held(market, since), Sell(sold, at, _, _)) =>
      if sold == market && (since.Some? ==> since.value < at) then Some(Flat) else None
    case _ => None
  }

  function AcceptAll(h: Holding, signals: seq<Signal>): Option<Holding> {
    if signals == [] then Some(h)
    else
      var before := AcceptAll(h, signals[..|signals| - 1]);
      if before.None? then None else Accept(before.value, signals[|signals| - 1])
  }

  function SignalsOf(events: seq<Event>): seq<Signal> {
    if events == [] then []
    else
      var last := events[|events| - 1];
      SignalsOf(events[..|events| - 1]) + (if last.SignalEvent? then [last.signal] else [])
  }

  lemma {:induction false} SignalsOfConcat(a: seq<Event>, b: seq<Event>)
    ensures SignalsOf(a + b) == SignalsOf(a) + SignalsOf(b)
  {
    if b == [] {
      assert a + b == a;
    } else {
      var n := |b| - 1;
      assert (a + b)[..|a + b| - 1] == a + b[..n] && (a + b)[|a + b| - 1] == b[n];
      SignalsOfConcat(a, b[..n]);
    }
  }

  lemma {:induction false} NoSignalsInSnapshots(bucket: Bucket)
    ensures SignalsOf(SnapshotEvents(bucket)) == []
  {
    if bucket != [] {
      var n := |bucket| - 1;
      NoSignalsInSnapshots(bucket[..n]);
      SignalsOfConcat(SnapshotEvents(bucket[..n]), [SnapshotEvent(bucket[n].snapshot)]);
      assert SignalsOf([SnapshotEvent(bucket[n].snapshot)]) == [];
    }
  }

  function SignalOf(outcome: Outcome): seq<Signal> {
    match outcome
    case Exited(p, q, reason) => [Sell(p.market, q.ts, reason, false)]
    case Entered(q, notional, tier) => [Buy(q.market, q.ts, notional, tier)]
    case _ => []
  }

  /** At most one signal per bucket, the one of its outcome. */
  lemma BucketSignals(cfg: Config, core: Core, bucket: Bucket)
    ensures SignalsOf(BucketTotals(cfg, core, bucket).events) == SignalOf(CoreStep(cfg, core, bucket).1)
  {
    NoSignalsInSnapshots(bucket);
    var outcome := CoreStep(cfg, core, bucket).1;
    OutcomeSignals(cfg, outcome, bucket);
    SignalsOfConcat(SnapshotEvents(bucket), OutcomeTotals(cfg, outcome, bucket).events);
  }

  /** An outcome's only event is its signal. */
  lemma OutcomeEvents(cfg: Config, outcome: Outcome, bucket: Bucket)
    ensures |SignalOf(outcome)| <= 1
    ensures OutcomeTotals(cfg, outcome, bucket).events
         == if SignalOf(outcome) == [] then [] else [SignalEvent(SignalOf(outcome)[0])]
  {
    hide CountsIn, Plus;
  }

  lemma SingleSignal(s: Signal)
    ensures SignalsOf([SignalEvent(s)]) == [s]
  {
    assert [SignalEvent(s)][..0] == [];
  }

  lemma OutcomeSignals(cfg: Config, outcome: Outcome, bucket: Bucket)
    ensures SignalsOf(OutcomeTotals(cfg, outcome, bucket).events) == SignalOf(outcome)
  {
    hide OutcomeTotals, SignalOf;
    OutcomeEvents(cfg, outcome, bucket);
    if SignalOf(outcome) != [] {
      SingleSignal(SignalOf(outcome)[0]);
    }
  }

  function StartHolding(position: Option<Position>): Holding {
    if position.None? then Flat else Held(position.value.market, None)
  }

  /** The monitor's verdict agrees with the position the run really holds at time `now` or before. */
  predicate Tracks(h: Option<Holding>, position: Option<Position>, now: Option<int>) {
    && h.Some?
    && (position.None? <==> h.value.Flat?)
    && (position.Some? ==>
          && h.value.market == position.value.market
          && (h.value.since.Some? ==>
                now.Some? && h.value.since.value <= now.value && h.value.since.value == position.value.enteredAtMs))
  }

  function EndTime(bs: seq<Bucket>): Option<int> {
    if bs == [] || bs[|bs| - 1] == [] then None else Some(bs[|bs| - 1][0].ts)
  }

  lemma StepTracks(cfg: Config, core: Core, bucket: Bucket, h: Option<Holding>, before: Option<int>)
    requires ValidBucket(bucket)
    requires Tracks(h, core.position, before)
    requires before.Some? ==> before.value < bucket[0].ts
    ensures var (next, outcome) := CoreStep(cfg, core, bucket);
            var after := if SignalOf(outcome) == [] then h else Accept(h.value, SignalOf(outcome)[0]);
            Tracks(after, next.position, Some(bucket[0].ts))
  {
    if core.position.Some? {
      var q := HeldPoint(bucket, core.position.value.market);
      if q.Some? {
        assert q.value in bucket;
      }
    } else {
      var outcome := CoreStep(cfg, core, bucket).1;
      if outcome.Entered? {
        assert outcome.entryPoint in bucket;
      }
    }
  }

  lemma AcceptOneMore(h: Holding, signals: seq<Signal>, last: seq<Signal>)
    requires |last| <= 1 && AcceptAll(h, signals).Some?
    ensures AcceptAll(h, signals + last)
         == if last == [] then AcceptAll(h, signals) else Accept(AcceptAll(h, signals).value, last[0])
  {
    if last == [] {
      assert signals + last == signals;
    } else {
      assert (signals + last)[..|signals + last| - 1] == signals;
    }
  }

  lemma StepTracksSignals(
    cfg: Config, core: Core, bucket: Bucket, start: Holding, signals: seq<Signal>, before: Option<int>)
    requires ValidBucket(bucket)
    requires Tracks(AcceptAll(start, signals), core.position, before)
    requires before.Some? ==> before.value < bucket[0].ts
    ensures var (next, outcome) := CoreStep(cfg, core, bucket);
            Tracks(AcceptAll(start, signals + SignalOf(outcome)), next.position, Some(bucket[0].ts))
  {
    StepTracks(cfg, core, bucket, AcceptAll(start, signals), before);
    AcceptOneMore(start, signals, SignalOf(CoreStep(cfg, core, bucket).1));
  }

  /** The signals of a run, one bucket after another. */
  lemma RunSignalsSnoc(cfg: Config, core: Core, bs: seq<Bucket>)
    requires bs != []
    ensures SignalsOf(RunTotals(cfg, core, bs).events)
         == SignalsOf(RunTotals(cfg, core, bs[..|bs| - 1]).events) + SignalOf(OutcomeAt(cfg, core, bs, |bs| - 1))
  {
    var n := |bs| - 1;
    var before := CoreAfter(cfg, core, bs[..n]);
    BucketSignals(cfg, before, bs[n]);
    SignalsOfConcat(RunTotals(cfg, core, bs[..n]).events, BucketTotals(cfg, before, bs[n]).events);
  }

  function RunHolding(cfg: Config, core: Core, bs: seq<Bucket>): Option<Holding> {
    AcceptAll(StartHolding(core.position), SignalsOf(RunTotals(cfg, core, bs).events))
  }

  lemma NothingSignalled(cfg: Config, core: Core)
    ensures Tracks(RunHolding(cfg, core, []), CoreAfter(cfg, core, []).position, EndTime([]))
  {
  }

  /** In every run buys and sells alternate, each sell names the held market and comes strictly after its
      buy, and the signals alone determine whether and what the run holds at the end. */
  lemma {:induction false} SignalsPair(cfg: Config, core: Core, bs: seq<Bucket>)
    requires ValidBuckets(bs)
    ensures Tracks(RunHolding(cfg, core, bs), CoreAfter(cfg, core, bs).position, EndTime(bs))
  {
    hide CoreStep, BucketTotals, SignalOf, Tracks, AcceptAll;
    if bs == [] {
      NothingSignalled(cfg, core);
    } else {
      var n := |bs| - 1;
      var init := bs[..n];
      assert forall i :: 0 <= i < n ==> init[i] == bs[i];
      SignalsPair(cfg, core, init);
      RunSignalsSnoc(cfg, core, bs);
      StepTracksSignals(cfg, CoreAfter(cfg, core, init), bs[n], StartHolding(core.position),
                        SignalsOf(RunTotals(cfg, core, init).events), EndTime(init));
    }
  }

  function Count(position: Option<Position>): nat {
    if position.Some? then 1 else 0
  }

  /** Carried positions plus entries minus exits is the number of positions held: never more than one. */
  lemma {:induction false} HeldCount(cfg: Config, core: Core, bs: seq<Bucket>)
    ensures var t := RunTotals(cfg, core, bs);
            Count(core.position) + t.entries - t.exits == Count(CoreAfter(cfg, core, bs).position)
  {
    if bs != [] {
      var n := |bs| - 1;
      HeldCount(cfg, core, bs[..n]);
      StepHeldCount(cfg, CoreAfter(cfg, core, bs[..n]), bs[n]);
    }
  }

  lemma StepHeldCount(cfg: Config, core: Core, bucket: Bucket)
    ensures var t := BucketTotals(cfg, core, bucket);
            Count(core.position) + t.entries - t.exits == Count(CoreStep(cfg, core, bucket).0.position)
  {
    OutcomeHeldCount(cfg, core, bucket);
    OutcomeTrades(cfg, CoreStep(cfg, core, bucket).1, bucket);
    AddTrades(SnapshotTotals(bucket), OutcomeTotals(cfg, CoreStep(cfg, core, bucket).1, bucket));
  }

  function Entries(outcome: Outcome): nat {
    if outcome.Entered? then 1 else 0
  }

  function Exits(outcome: Outcome): nat {
    if outcome.Exited? then 1 else 0
  }

  lemma OutcomeHeldCount(cfg: Config, core: Core, bucket: Bucket)
    ensures var (next, outcome) := CoreStep(cfg, core, bucket);
            Count(core.position) + Entries(outcome) - Exits(outcome) == Count(next.position)
  {
  }

  lemma OutcomeTrades(cfg: Config, outcome: Outcome, bucket: Bucket)
    ensures var t := OutcomeTotals(cfg, outcome, bucket);
            t.entries == Entries(outcome) && t.exits == Exits(outcome)
  {
  }

  lemma AddTrades(a: Totals, b: Totals)
    ensures Add(a, b).entries == a.entries + b.entries && Add(a, b).exits == a.exits + b.exits
  {
  }

  /** Single-position safety of a whole run with its ending: the complete signal list, synthetic close
      included, passes the monitor; a carry-open run hands on a position iff it is one up on entries, and
      after the other endings nothing is held. */
  lemma ReportIsPaired(cfg: Config, policy: SyntheticPolicy, start: Core, bs: seq<Bucket>, lastTs: int)
    requires ValidBuckets(bs) && EndTime(bs) == Some(lastTs)
    ensures var r := Replay(cfg, policy, start, bs, lastTs);
            r.Ok? ==> Paired(policy, StartHolding(start.position), Count(start.position), r.value)
  {
    SignalsPair(cfg, start, bs);
    HeldCount(cfg, start, bs);
    CloseIsPaired(cfg, policy, StartHolding(start.position), Count(start.position),
                  CoreAfter(cfg, start, bs), RunTotals(cfg, start, bs), lastTs);
  }

  ghost predicate Paired(policy: SyntheticPolicy, first: Holding, carried: nat, report: Report) {
    && var h := AcceptAll(first, SignalsOf(report.totals.events));
    && h.Some?
    && (h.value.Held? <==> report.openState.Some?)
    && carried + report.totals.entries - report.totals.exits == Count(report.openState)
    && (report.openState.Some? ==> policy.CarryOpen? && h.value.market == report.openState.value.market)
  }

  lemma CloseIsPaired(
    cfg: Config, policy: SyntheticPolicy, first: Holding, carried: nat, core: Core, t: Totals, lastTs: int)
    requires Tracks(AcceptAll(first, SignalsOf(t.events)), core.position, Some(lastTs))
    requires carried + t.entries - t.exits == Count(core.position)
    ensures var r := Finish(cfg, policy, core, t, lastTs);
            r.Ok? ==> Paired(policy, first, carried, r.value)
  {
    hide AcceptAll, SignalsOf, SyntheticSnapshot;
    if core.position.Some? && !policy.CarryOpen? && core.position.value.market in t.latest {
      var p := core.position.value;
      var at := SyntheticAtMs(cfg, p, lastTs);
      var snapshot := SnapshotEvent(SyntheticSnapshot(t.latest[p.market], at, policy));
      var close := Sell(p.market, at, TimeStop, true);
      TwoEvents(t.events, snapshot, SignalEvent(close));
      AcceptOneMore(first, SignalsOf(t.events), [close]);
    }
  }

  /** A synthetic close is one more exit, so that the count still balances. */
  lemma FinishCount(cfg: Config, policy: SyntheticPolicy, carried: nat, core: Core, t: Totals, lastTs: int)
    requires carried + t.entries - t.exits == Count(core.position)
    ensures var r := Finish(cfg, policy, core, t, lastTs);
            r.Ok? ==> carried + r.value.totals.entries - r.value.totals.exits == Count(r.value.openState)
  {
  }

  lemma TwoEvents(events: seq<Event>, snapshot: Event, signal: Event)
    requires snapshot.SnapshotEvent? && signal.SignalEvent?
    ensures SignalsOf(events + [snapshot, signal]) == SignalsOf(events) + [signal.signal]
  {
    var all := events + [snapshot, signal];
    assert all[..|all| - 1] == events + [snapshot];
    assert (events + [snapshot])[..|events|] == events;
  }

  // ---------------------------------------------------------------------------------------------
  // Cash

  function CashFlow(outcome: Outcome): real {
    match outcome
    case Exited(p, q, _) => p.quantity * q.snapshot.bid
    case Entered(_, notional, _) => -notional
    case _ => 0.0
  }

  function CashFlows(cfg: Config, core: Core, bs: seq<Bucket>): real {
    if bs == [] then 0.0
    else CashFlows(cfg, core, bs[..|bs| - 1]) + CashFlow(OutcomeAt(cfg, core, bs, |bs| - 1))
  }

  /** Cash is the starting cash minus the entry notionals plus quantity times bid of the exits. */
  lemma {:induction false} CashLedger(cfg: Config, core: Core, bs: seq<Bucket>)
    ensures CoreAfter(cfg, core, bs).cash == core.cash + CashFlows(cfg, core, bs)
  {
    if bs != [] {
      var n := |bs| - 1;
      CashLedger(cfg, core, bs[..n]);
      StepCash(cfg, CoreAfter(cfg, core, bs[..n]), bs[n]);
    }
  }

  lemma StepCash(cfg: Config, core: Core, bucket: Bucket)
    ensures var (next, outcome) := CoreStep(cfg, core, bucket);
            next.cash == core.cash + CashFlow(outcome)
  {
  }

  const CASH_FLOOR_KRW := 49_999.999

  predicate CashSafe(floor: real, core: Core) {
    core.cash >= floor && (core.position.Some? ==> core.position.value.quantity >= 0.0)
  }

  lemma EntryKeepsFloor(cfg: Config, cash: real, q: Point)
    requires RequestedNotional(cfg, cash, q) >= MIN_ENTRY_NOTIONAL_KRW
    ensures cash - RequestedNotional(cfg, cash, q) >= CASH_FLOOR_KRW
  {
    var wanted := Min(CashLimit(cfg.live, cash), BookLimit(q));
    Round3Error(wanted);
  }

  lemma StepKeepsFloor(cfg: Config, core: Core, bucket: Bucket, floor: real)
    requires floor <= CASH_FLOOR_KRW && CashSafe(floor, core)
    ensures CashSafe(floor, CoreStep(cfg, core, bucket).0)
  {
    match CoreStep(cfg, core, bucket).1
    case Entered(q, notional, _) =>
      EntryKeepsFloor(cfg, core.cash, q);
      PositiveQuotient(notional, q.snapshot.ask);
    case Exited(p, q, _) =>
      PositiveProduct(p.quantity, q.snapshot.bid);
    case _ =>
  }

  lemma PositiveProduct(a: real, b: Pos)
    requires a >= 0.0
    ensures a * b >= 0.0
  {
  }

  /** The carried position is still the one held. */
  predicate StillCarried(cfg: Config, core: Core, bs: seq<Bucket>) {
    if bs == [] then core.position.Some?
    else StillCarried(cfg, core, bs[..|bs| - 1]) && !OutcomeAt(cfg, core, bs, |bs| - 1).Exited?
  }

  /** What selling the carried position brought in: nothing while it is held, less than nothing for a short one. */
  function CarriedSale(cfg: Config, core: Core, bs: seq<Bucket>): real {
    if bs == [] then 0.0
    else
      var n := |bs| - 1;
      if StillCarried(cfg, core, bs[..n]) then CashFlow(OutcomeAt(cfg, core, bs, n))
      else CarriedSale(cfg, core, bs[..n])
  }

  predicate Long(core: Core) {
    core.position.Some? ==> core.position.value.quantity >= 0.0
  }

  /** While the carried position is held cash does not move; from its sale on cash is safe. */
  ghost predicate CashFollows(cfg: Config, core: Core, bs: seq<Bucket>) {
    var end, sale := CoreAfter(cfg, core, bs), CarriedSale(cfg, core, bs);
    && (StillCarried(cfg, core, bs) ==>
          && core.position.Some? && end.position.Some?
          && end.position.value.quantity == core.position.value.quantity
          && end.cash == core.cash && sale == 0.0)
    && (!StillCarried(cfg, core, bs) ==> CashSafe(Min(core.cash + sale, CASH_FLOOR_KRW), end))
    && (Long(core) ==> sale >= 0.0)
  }

  lemma {:induction false} CashFollowsRun(cfg: Config, core: Core, bs: seq<Bucket>)
    ensures CashFollows(cfg, core, bs)
  {
    hide CoreStep;
    if bs != [] {
      var n := |bs| - 1;
      var before := CoreAfter(cfg, core, bs[..n]);
      CashFollowsRun(cfg, core, bs[..n]);
      StepCash(cfg, before, bs[n]);
      if StillCarried(cfg, core, bs[..n]) {
        HeldStep(cfg, before, bs[n]);
      } else {
        StepKeepsFloor(cfg, before, bs[n], Min(core.cash + CarriedSale(cfg, core, bs[..n]), CASH_FLOOR_KRW));
      }
    }
  }

  /** A bucket that starts with a position keeps it and the cash, or sells it. */
  lemma HeldStep(cfg: Config, core: Core, bucket: Bucket)
    requires core.position.Some?
    ensures var (next, outcome) := CoreStep(cfg, core, bucket);
            && (outcome.Exited? ==> next.position.None?)
            && (outcome.Exited? && core.position.value.quantity >= 0.0 ==> CashFlow(outcome) >= 0.0)
            && (!outcome.Exited? ==>
                  && CashFlow(outcome) == 0.0 && next.position.Some?
                  && next.position.value.quantity == core.position.value.quantity)
  {
    var q := HeldPoint(bucket, core.position.value.market);
    if q.Some? && core.position.value.quantity >= 0.0 {
      PositiveProduct(core.position.value.quantity, q.value.snapshot.bid);
    }
  }

  /** Whatever the market does, and despite the rounding of the notional, cash never falls below 49999.999 KRW or
      the starting cash, whichever is less; a carried short position can only lower the latter by what buying it
      back cost. */
  lemma CashFloor(cfg: Config, core: Core, bs: seq<Bucket>)
    ensures CoreAfter(cfg, core, bs).cash >= Min(core.cash + Min(0.0, CarriedSale(cfg, core, bs)), CASH_FLOOR_KRW)
    ensures Long(core) ==> CoreAfter(cfg, core, bs).cash >= Min(core.cash, CASH_FLOOR_KRW)
  {
    hide CoreAfter, CarriedSale, StillCarried;
    CashFollowsRun(cfg, core, bs);
  }

  /** The exception is real: any short position with a positive entry price is bought back at a loss of cash by
      some bucket, if the stop-loss leaves a price to stop at. */
  lemma ShortPositionBreaksFloor(cfg: Config, core: Core, p: Position, template: Point) returns (bucket: Bucket)
    requires core.position == Some(p) && p.quantity < 0.0 && p.entryPrice > 0.0
    requires cfg.exit.stopLossPct < 100.0 && core.cash <= CASH_FLOOR_KRW
    ensures CoreAfter(cfg, core, [bucket]).cash < Min(core.cash, CASH_FLOOR_KRW)
  {
    var level := 1.0 - cfg.exit.stopLossPct / 100.0;
    Products(p.entryPrice, level);
    var stop: Pos := p.entryPrice * level;
    var q := template.(market := p.market, snapshot := template.snapshot.(bid := stop));
    bucket := [q];
    StopsAtLevel(cfg.exit, p, q);
    assert HeldPoint(bucket, p.market) == Some(q);
    Products(-p.quantity, stop);
    assert [bucket][..0] == [];
    SoldAtBid(cfg, core, bucket, p, q);
  }

  lemma StopsAtLevel(exit: ExitProfile, p: Position, q: Point)
    requires p.entryPrice > 0.0 && q.snapshot.bid == p.entryPrice * (1.0 - exit.stopLossPct / 100.0)
    ensures ExitFor(exit, Observe(exit, p, q), q) == Some(StopLoss)
  {
    var seen := Observe(exit, p, q);
    ExitInPrices(ExitContext(seen.entryPrice, q.snapshot.bid, HoldingMs(seen, q.ts), q.ret1mBps, q.depthRatio,
                             seen.negativeRet1m, seen.bookFailures, seen.peakBid, Some(q.ret5mBps)),
                 exit);
  }

  lemma SoldAtBid(cfg: Config, core: Core, bucket: Bucket, p: Position, q: Point)
    requires core.position == Some(p) && HeldPoint(bucket, p.market) == Some(q)
    requires ExitFor(cfg.exit, Observe(cfg.exit, p, q), q).Some?
    ensures CoreStep(cfg, core, bucket).0.cash == core.cash + p.quantity * q.snapshot.bid
    ensures CoreAfter(cfg, core, [bucket]) == CoreStep(cfg, core, bucket).0
  {
    hide ExitFor, Observe, CoreAfter;
    OneBucket(cfg, core, bucket);
  }

  lemma OneBucket(cfg: Config, core: Core, bucket: Bucket)
    ensures CoreAfter(cfg, core, [bucket]) == CoreStep(cfg, core, bucket).0
  {
    hide CoreStep;
    assert [bucket][..0] == [];
    assert CoreAfter(cfg, core, [bucket][..0]) == core;
  }

  /** Exactly when an entry leaves less than the minimum notional: a session that is not live, holding less than
      100000 KRW, spends exactly 50000. */
  lemma EntryLeavesLessIff(cfg: Config, cash: real, q: Point)
    requires RequestedNotional(cfg, cash, q) >= MIN_ENTRY_NOTIONAL_KRW
    ensures cash - RequestedNotional(cfg, cash, q) < MIN_ENTRY_NOTIONAL_KRW
       <==> !cfg.live && RequestedNotional(cfg, cash, q) == MIN_ENTRY_NOTIONAL_KRW && cash < 100_000.0
  {
    var wanted := Min(CashLimit(cfg.live, cash), BookLimit(q));
    Round3Error(wanted);
    RoundsToNearest(wanted);
  }

  /** And a whole run that does: from 99999.999 KRW the request of half of it is a tie that rounds up to 50000, and
      the run ends exactly on the floor. */
  lemma CashFloorIsTight(cfg: Config, q: Point)
    requires !cfg.live && q.snapshot.ask == 1.0 && q.snapshot.askSize == 1000000.0 && cfg.decide(q).tier.Some?
    ensures RequestedNotional(cfg, 99_999.999, q) == 50_000.0
    ensures CoreAfter(cfg, Core(None, 99_999.999), [[q]]).cash == CASH_FLOOR_KRW
  {
    TightNotional(cfg, q);
    EntersAlone(cfg, 99_999.999, q);
  }

  lemma TightNotional(cfg: Config, q: Point)
    requires !cfg.live && q.snapshot.ask == 1.0 && q.snapshot.askSize == 1000000.0
    ensures RequestedNotional(cfg, 99_999.999, q) == 50_000.0
  {
    var wanted := 49_999.9995;
    assert (wanted * 1000.0).Floor == 49_999_999;
  }

  lemma EntersAlone(cfg: Config, cash: real, q: Point)
    requires cfg.decide(q).tier.Some? && RequestedNotional(cfg, cash, q) >= MIN_ENTRY_NOTIONAL_KRW
    ensures CoreAfter(cfg, Core(None, cash), [[q]])
         == Core(Some(Open(q, RequestedNotional(cfg, cash, q))), cash - RequestedNotional(cfg, cash, q))
  {
    hide RequestedNotional;
    var scores := EntryScores(cfg, [q]);
    assert scores[..0] == [] && scores[0].Some?;
    assert FirstMax(scores) == Some(0);
    assert [[q]][..0] == [];
    assert CoreAfter(cfg, Core(None, cash), [[q]][..0]) == Core(None, cash);
  }

  // ---------------------------------------------------------------------------------------------
  // Accounting

  /** The entry decision suppresses a point exactly when it gives it no tier. */
  ghost predicate Decisive(cfg: Config) {
    forall q :: cfg.decide(q).tier.None? <==> cfg.decide(q).suppression.Some?
  }

  lemma EligibilityIsDecisive(profile: EntryProfile, exit: ExitProfile, live: bool)
    ensures Decisive(ConfigFor(profile, exit, live))
  {
    var cfg := ConfigFor(profile, exit, live);
    forall q ensures cfg.decide(q).tier.None? <==> cfg.decide(q).suppression.Some? {
      EligibleClearsHurdle(
        EntryMetrics(q.ret5mBps, q.buyShare, q.depthRatio, q.spreadBps, q.turnover24h, q.coverageSec,
                     Some(q.market), q.ret1mBps),
        profile);
    }
  }

  lemma NeverIdle(cfg: Config, core: Core, bucket: Bucket)
    requires Decisive(cfg) && bucket != []
    ensures !CoreStep(cfg, core, bucket).1.Idle?
  {
    FirstMaxLeads(EntryScores(cfg, bucket));
    FirstMaxLeads(SuppressedScores(cfg, bucket));
    assert EntryScores(cfg, bucket)[0].Some? || SuppressedScores(cfg, bucket)[0].Some?;
  }

  function IneligibleIn(cfg: Config, bucket: Bucket): nat {
    if bucket == [] then 0
    else
      IneligibleIn(cfg, bucket[..|bucket| - 1]) + (if cfg.decide(bucket[|bucket| - 1]).tier.None? then 1 else 0)
  }

  /** Ineligible points over the buckets in which an entry was evaluated. */
  function IneligibleSeen(cfg: Config, core: Core, bs: seq<Bucket>): nat {
    if bs == [] then 0
    else
      var n := |bs| - 1;
      IneligibleSeen(cfg, core, bs[..n])
      + (if Evaluates(OutcomeAt(cfg, core, bs, n)) then IneligibleIn(cfg, bs[n]) else 0)
  }

  lemma {:induction false} SuppressedPointsCounted(cfg: Config, bucket: Bucket)
    requires Decisive(cfg)
    ensures var c := CountsIn(cfg, bucket);
            && |c.suppressions| == |c.combinations| == IneligibleIn(cfg, bucket)
            && |c.gateFailures| >= IneligibleIn(cfg, bucket)
  {
    if bucket != [] {
      var n := |bucket| - 1;
      SuppressedPointsCounted(cfg, bucket[..n]);
      FieldCountsSize(cfg.decide(bucket[n]).failures);
    }
  }

  lemma {:induction false} FieldCountsSize(failures: seq<GateFailure>)
    ensures |FieldCounts(failures)| == |failures|
  {
    if failures != [] {
      FieldCountsSize(failures[..|failures| - 1]);
    }
  }

  /** `t` accounts for every one of `n` buckets exactly once. */
  predicate Accounted(t: Totals, n: nat, ineligible: nat) {
    && n == t.evaluated + t.blockedOpen + t.blockedAfterExit
    && t.evaluated == t.entries + t.belowMinimum + |t.samples|
    && t.blockedAfterExit == t.exits
    && |t.counts.suppressions| == |t.counts.combinations| == ineligible
    && |t.counts.gateFailures| >= ineligible
  }

  lemma AccountedAdds(a: Totals, b: Totals, n: nat, m: nat, i: nat, j: nat)
    requires Accounted(a, n, i) && Accounted(b, m, j)
    ensures Accounted(Add(a, b), n + m, i + j)
  {
  }

  /** Complete accounting: each bucket is open-blocked, after-exit or evaluated; each evaluated one enters,
      falls below the minimum or leaves one suppressed sample; suppressions and gate combinations both
      count the ineligible points of the evaluated buckets. */
  lemma {:induction false} CompleteAccounting(cfg: Config, core: Core, bs: seq<Bucket>)
    requires Decisive(cfg) && forall i :: 0 <= i < |bs| ==> bs[i] != []
    ensures Accounted(RunTotals(cfg, core, bs), |bs|, IneligibleSeen(cfg, core, bs))
  {
    if bs != [] {
      var n := |bs| - 1;
      var before := CoreAfter(cfg, core, bs[..n]);
      CompleteAccounting(cfg, core, bs[..n]);
      BucketAccounted(cfg, before, bs[n]);
      AccountedAdds(RunTotals(cfg, core, bs[..n]), BucketTotals(cfg, before, bs[n]), n, 1,
                    IneligibleSeen(cfg, core, bs[..n]),
                    if Evaluates(CoreStep(cfg, before, bs[n]).1) then IneligibleIn(cfg, bs[n]) else 0);
    }
  }

  lemma BucketAccounted(cfg: Config, core: Core, bucket: Bucket)
    requires Decisive(cfg) && bucket != []
    ensures Accounted(BucketTotals(cfg, core, bucket), 1,
                      if Evaluates(CoreStep(cfg, core, bucket).1) then IneligibleIn(cfg, bucket) else 0)
  {
    NeverIdle(cfg, core, bucket);
    SuppressedPointsCounted(cfg, bucket);
  }

  // ---------------------------------------------------------------------------------------------
  // Whole sessions

  /** The report of a session that started with `start` satisfies all of the above at once. */
  ghost predicate SafeReport(cfg: Config, policy: SyntheticPolicy, start: Core, bs: seq<Bucket>, report: Report) {
    && Paired(policy, StartHolding(start.position), Count(start.position), report)
    && report.cash == start.cash + CashFlows(cfg, start, bs)
    && report.cash >= Min(start.cash + Min(0.0, CarriedSale(cfg, start, bs)), CASH_FLOOR_KRW)
    && (Long(start) ==> report.cash >= Min(start.cash, CASH_FLOOR_KRW))
    && report.totals.exits >= report.syntheticCloses
    && Accounted(report.totals.(exits := report.totals.exits - report.syntheticCloses), |bs|,
                 IneligibleSeen(cfg, start, bs))
  }

  /** Every session with the source's entry gates, over any points and any carried position. */
  lemma EverySessionIsSafe(
    profile: EntryProfile, exit: ExitProfile, live: bool, policy: SyntheticPolicy, init: InitialState,
    points: seq<Point>)
    requires Sorted(points)
    ensures var cfg := ConfigFor(profile, exit, live);
            var r := BuildScenario(cfg, policy, init, points);
            r.Ok? ==> SafeReport(cfg, policy, Core(LoadInitialPosition(init).value, init.cash),
                                 Buckets(Downsample(points)), r.value)
  {
    hide SafeReport, Replay, Downsample, Buckets;
    var kept := Downsample(points);
    DownsampleSorted(points);
    BucketsPartition(kept);
    EligibilityIsDecisive(profile, exit, live);
    if kept != [] && LoadInitialPosition(init).Ok? {
      LastBucketTime(kept);
      ReplayIsSafe(ConfigFor(profile, exit, live), policy, Core(LoadInitialPosition(init).value, init.cash),
                   Buckets(kept), kept[|kept| - 1].ts);
    }
  }

  lemma LastBucketTime(points: seq<Point>)
    requires points != []
    ensures EndTime(Buckets(points)) == Some(points[|points| - 1].ts)
  {
  }

  lemma ReplayIsSafe(cfg: Config, policy: SyntheticPolicy, start: Core, bs: seq<Bucket>, lastTs: int)
    requires Decisive(cfg) && ValidBuckets(bs) && EndTime(bs) == Some(lastTs)
    ensures var r := Replay(cfg, policy, start, bs, lastTs);
            r.Ok? ==> SafeReport(cfg, policy, start, bs, r.value)
  {
    hide CoreAfter, RunTotals, Finish, CashFlows, IneligibleSeen, Paired, CarriedSale;
    ReportIsPaired(cfg, policy, start, bs, lastTs);
    CashLedger(cfg, start, bs);
    CashFloor(cfg, start, bs);
    forall i | 0 <= i < |bs| ensures bs[i] != [] {
      assert ValidBucket(bs[i]);
    }
    CompleteAccounting(cfg, start, bs);
    FinishKeeps(cfg, policy, CoreAfter(cfg, start, bs), RunTotals(cfg, start, bs), lastTs);
  }

  /** Ending a run changes the event list and, for a synthetic close, the exit count; nothing else. */
  lemma FinishKeeps(cfg: Config, policy: SyntheticPolicy, core: Core, totals: Totals, lastTs: int)
    ensures var r := Finish(cfg, policy, core, totals, lastTs);
            r.Ok? ==>
              && r.value.cash == core.cash
              && r.value.totals
              == totals.(events := r.value.totals.events, exits := totals.exits + r.value.syntheticCloses)
  {
  }
}
