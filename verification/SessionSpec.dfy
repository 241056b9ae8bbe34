/** What one replay run of `build_session_scenario` computes, as a function of its buckets. The
    object that computes it step by step is `SessionReplay`. */
module SessionSpec {
  import opened Basics
  import opened ExitPolicy
  import opened Eligibility
  import opened SessionPoints
  import Lexicographic

  datatype SyntheticPolicy = ForceBid | MarkMid | CarryOpen

  /** The entry decision enters the replay as a function of the point. */
  datatype Config = Config(decide: Point -> Decision, exit: ExitProfile, live: bool)

  datatype Position = Position(
    market: string,
    enteredAtMs: int,
    entryPrice: NonZero,
    quantity: real,
    quoteNotional: real,
    negativeRet1m: int,
    bookFailures: int,
    peakBid: real)

  /** The part of the state that later decisions depend on. */
  datatype Core = Core(position: Option<Position>, cash: real)

  datatype Signal =
    | Buy(market: string, atMs: int, notional: real, tier: Tier)
    | Sell(market: string, atMs: int, reason: ExitReason, synthetic: bool)

  datatype Event = SnapshotEvent(snapshot: Snapshot) | SignalEvent(signal: Signal)

  /** A suppressed candidate recorded when a bucket had no eligible one. */
  datatype Sample = Sample(point: Point, suppression: Suppression, failures: seq<GateFailure>, notional: real)

  /** What one bucket did. */
  datatype Outcome =
    | HeldOpen
    | Exited(closed: Position, exitPoint: Point, reason: ExitReason)
    | Entered(entryPoint: Point, notional: real, tier: Tier)
    | BelowMinimum
    | Suppressed(sample: Sample)
    | Idle

  const MIN_ENTRY_NOTIONAL_KRW := 50_000.0
  const AGGRESSIVE_NOTIONAL_FRACTION := 0.50
  const LIVE_SINGLE_MARKET_NOTIONAL_FRACTION := 0.20
  const TOP_OF_BOOK_NOTIONAL_FRACTION := 1.50
  const MIN_CARRIED_QUANTITY := 0.000000000001

  // ---------------------------------------------------------------------------------------------
  // The held position

  /** Streaming update of the held position with the market's point in this bucket. */
  function Observe(exit: ExitProfile, p: Position, q: Point): Position {
    p.(peakBid := Max(p.peakBid, q.snapshot.bid),
       negativeRet1m := if NegativeRet1m(exit, q.ret1mBps) then p.negativeRet1m + 1 else 0,
       bookFailures := if FailingBook(exit, q.depthRatio) then p.bookFailures + 1 else 0)
  }

  function HoldingMs(p: Position, now: int): int {
    if p.enteredAtMs <= 0 then 0 else now - p.enteredAtMs
  }

  /** The exit decision for a position already updated with `q`. */
  function ExitFor(exit: ExitProfile, p: Position, q: Point): Option<ExitReason> {
    EvaluateExit(
      ExitContext(p.entryPrice, q.snapshot.bid, HoldingMs(p, q.ts), q.ret1mBps, q.depthRatio,
                  p.negativeRet1m, p.bookFailures, p.peakBid, Some(q.ret5mBps)),
      exit)
  }

  /** The first point of the bucket that belongs to the held market. */
  function HeldPoint(bucket: Bucket, market: string): (q: Option<Point>)
    ensures q.None? <==> forall p :: p in bucket ==> p.market != market
    ensures q.Some? ==> q.value in bucket && q.value.market == market
  {
    if bucket == [] then None
    else if bucket[0].market == market then Some(bucket[0])
    else HeldPoint(bucket[1..], market)
  }

  // ---------------------------------------------------------------------------------------------
  // The entry

  /** Rounding to three decimals, ties to even. */
  function Round3(x: real): real {
    var scaled := x * 1000.0;
    var down := scaled.Floor;
    var rest := scaled - down as real;
    (if rest < 0.5 || (rest == 0.5 && down % 2 == 0) then down else down + 1) as real / 1000.0
  }

  function NotionalFraction(live: bool): real {
    if live then LIVE_SINGLE_MARKET_NOTIONAL_FRACTION else AGGRESSIVE_NOTIONAL_FRACTION
  }

  function CashLimit(live: bool, cash: real): real {
    cash * NotionalFraction(live)
  }

  function BookLimit(q: Point): real {
    q.snapshot.ask * q.snapshot.askSize * TOP_OF_BOOK_NOTIONAL_FRACTION
  }

  function RequestedNotional(cfg: Config, cash: real, q: Point): real {
    Round3(Min(CashLimit(cfg.live, cash), BookLimit(q)))
  }

  function DecisionFor(profile: EntryProfile, q: Point): Decision {
    EvaluateEntry(
      EntryMetrics(q.ret5mBps, q.buyShare, q.depthRatio, q.spreadBps, q.turnover24h, q.coverageSec,
                   Some(q.market), q.ret1mBps),
      profile)
  }

  /** The configuration of a session: entry profile, exit profile, and whether the intent is live. */
  function ConfigFor(profile: EntryProfile, exit: ExitProfile, live: bool): Config {
    Config(q => DecisionFor(profile, q), exit, live)
  }

  type Score = seq<real>

  predicate RealLess(a: real, b: real) {
    a < b
  }

  predicate ScoreLess(a: Score, b: Score) {
    Lexicographic.Less(RealLess, a, b)
  }

  /** The score of an eligible point; `None` when no tier was reached. */
  function EntryScore(cfg: Config, q: Point): Option<Score> {
    match cfg.decide(q).tier
    case None => None
    case Some(tier) =>
      Some([if tier.High? then 2.0 else 1.0, q.ret5mBps, q.buyShare, q.depthRatio, -q.spreadBps])
  }

  function SuppressedScore(cfg: Config, q: Point): Option<Score> {
    var d := cfg.decide(q);
    if d.tier.None? && d.suppression.Some? then
      Some([q.ret5mBps, q.buyShare, q.depthRatio, -q.spreadBps, q.turnover24h])
    else None
  }

  function EntryScores(cfg: Config, bucket: Bucket): seq<Option<Score>> {
    seq(|bucket|, i requires 0 <= i < |bucket| => EntryScore(cfg, bucket[i]))
  }

  function SuppressedScores(cfg: Config, bucket: Bucket): seq<Option<Score>> {
    seq(|bucket|, i requires 0 <= i < |bucket| => SuppressedScore(cfg, bucket[i]))
  }

  /** Scan from the left, replacing the leader only by a strictly larger score. */
  function FirstMax(scores: seq<Option<Score>>): (r: Option<nat>)
    ensures r.Some? ==> r.value < |scores| && scores[r.value].Some?
  {
    if scores == [] then None
    else
      var n := |scores| - 1;
      var leader := FirstMax(scores[..n]);
      if scores[n].Some? && (leader.None? || ScoreLess(scores[leader.value].value, scores[n].value)) then Some(n)
      else leader
  }

  function Open(q: Point, notional: real): Position {
    Position(q.market, q.ts, q.snapshot.ask, notional / q.snapshot.ask, notional, 0, 0, q.snapshot.bid)
  }

  /** What the leading candidates of a bucket lead to: an entry, a notional below the minimum, or a sample
      of the best suppressed candidate. */
  function EntryDecision(cfg: Config, cash: real, bucket: Bucket, best: Option<nat>, suppressed: Option<nat>)
    : (Core, Outcome)
    requires best.Some? ==> best.value < |bucket| && cfg.decide(bucket[best.value]).tier.Some?
    requires suppressed.Some? ==> suppressed.value < |bucket| && cfg.decide(bucket[suppressed.value]).suppression.Some?
  {
    if best.Some? then
      var q := bucket[best.value];
      var notional := RequestedNotional(cfg, cash, q);
      if notional >= MIN_ENTRY_NOTIONAL_KRW then
        (Core(Some(Open(q, notional)), cash - notional), Entered(q, notional, cfg.decide(q).tier.value))
      else (Core(None, cash), BelowMinimum)
    else if suppressed.Some? then
      var q := bucket[suppressed.value];
      var d := cfg.decide(q);
      (Core(None, cash), Suppressed(Sample(q, d.suppression.value, d.failures, RequestedNotional(cfg, cash, q))))
    else (Core(None, cash), Idle)
  }

  /** The entry decision of a bucket that starts without a position. */
  function EntryStep(cfg: Config, cash: real, bucket: Bucket): (Core, Outcome) {
    EntryDecision(cfg, cash, bucket, FirstMax(EntryScores(cfg, bucket)), FirstMax(SuppressedScores(cfg, bucket)))
  }

  // ---------------------------------------------------------------------------------------------
  // One bucket, then a run of buckets

  function CoreStep(cfg: Config, core: Core, bucket: Bucket): (Core, Outcome) {
    match core.position
    case None => EntryStep(cfg, core.cash, bucket)
    case Some(p) =>
      match HeldPoint(bucket, p.market)
      case None => (core, HeldOpen)
      case Some(q) =>
        var seen := Observe(cfg.exit, p, q);
        match ExitFor(cfg.exit, seen, q)
        case None => (Core(Some(seen), core.cash), HeldOpen)
        case Some(reason) => (Core(None, core.cash + p.quantity * q.snapshot.bid), Exited(seen, q, reason))
  }

  function CoreAfter(cfg: Config, core: Core, buckets: seq<Bucket>): Core {
    if buckets == [] then core
    else
      var n := |buckets| - 1;
      CoreStep(cfg, CoreAfter(cfg, core, buckets[..n]), buckets[n]).0
  }

  /** What bucket `n` of the run did. */
  function OutcomeAt(cfg: Config, core: Core, buckets: seq<Bucket>, n: nat): Outcome
    requires n < |buckets|
  {
    CoreStep(cfg, CoreAfter(cfg, core, buckets[..n]), buckets[n]).1
  }

  // ---------------------------------------------------------------------------------------------
  // The accounting beside the core: events and counters. A counting dictionary is a multiset.

  /** The counting dictionaries over suppressed decisions. */
  datatype Counts = Counts(
    suppressions: multiset<Suppression>,
    gateFailures: multiset<GateField>,
    combinations: multiset<set<GateField>>)

  const NO_COUNTS := Counts(multiset{}, multiset{}, multiset{})

  function Plus(a: Counts, b: Counts): Counts {
    Counts(a.suppressions + b.suppressions, a.gateFailures + b.gateFailures, a.combinations + b.combinations)
  }

  datatype Totals = Totals(
    events: seq<Event>,
    latest: map<string, Snapshot>,
    entries: nat,
    exits: nat,
    evaluated: nat,
    blockedOpen: nat,
    blockedAfterExit: nat,
    belowMinimum: nat,
    counts: Counts,
    samples: seq<Sample>,
    traded: set<string>)

  const NO_TOTALS := Totals([], map[], 0, 0, 0, 0, 0, 0, NO_COUNTS, [], {})

  function Add(a: Totals, b: Totals): Totals {
    Totals(a.events + b.events, a.latest + b.latest, a.entries + b.entries, a.exits + b.exits,
           a.evaluated + b.evaluated, a.blockedOpen + b.blockedOpen, a.blockedAfterExit + b.blockedAfterExit,
           a.belowMinimum + b.belowMinimum, Plus(a.counts, b.counts), a.samples + b.samples, a.traded + b.traded)
  }

  function SnapshotEvents(bucket: Bucket): seq<Event> {
    if bucket == [] then []
    else SnapshotEvents(bucket[..|bucket| - 1]) + [SnapshotEvent(bucket[|bucket| - 1].snapshot)]
  }

  function LatestOf(bucket: Bucket): map<string, Snapshot> {
    if bucket == [] then map[]
    else LatestOf(bucket[..|bucket| - 1])[bucket[|bucket| - 1].market := bucket[|bucket| - 1].snapshot]
  }

  /** The labels under which one suppressed decision is counted. */
  function FieldsOf(failures: seq<GateFailure>): set<GateField> {
    if failures == [] then {TierConfluence} else set f | f in failures :: f.field
  }

  function FieldCounts(failures: seq<GateFailure>): multiset<GateField> {
    if failures == [] then multiset{}
    else FieldCounts(failures[..|failures| - 1]) + multiset{failures[|failures| - 1].field}
  }

  /** What one decision adds to the counts: nothing unless it suppresses the point. */
  function CountsOf(d: Decision): Counts {
    if d.tier.None? && d.suppression.Some? then
      Counts(multiset{d.suppression.value},
             if d.failures == [] then multiset{TierConfluence} else FieldCounts(d.failures),
             multiset{FieldsOf(d.failures)})
    else NO_COUNTS
  }

  function CountsIn(cfg: Config, bucket: Bucket): Counts {
    if bucket == [] then NO_COUNTS
    else Plus(CountsIn(cfg, bucket[..|bucket| - 1]), CountsOf(cfg.decide(bucket[|bucket| - 1])))
  }

  predicate Evaluates(outcome: Outcome) {
    !outcome.HeldOpen? && !outcome.Exited?
  }

  function SnapshotTotals(bucket: Bucket): Totals {
    NO_TOTALS.(events := SnapshotEvents(bucket), latest := LatestOf(bucket))
  }

  /** What scanning a bucket for an entry adds. */
  function ScanTotals(cfg: Config, bucket: Bucket): Totals {
    NO_TOTALS.(evaluated := 1, counts := CountsIn(cfg, bucket))
  }

  /** What acting on the scan adds. */
  function ActionTotals(outcome: Outcome): Totals {
    match outcome
    case Entered(q, notional, tier) =>
      NO_TOTALS.(events := [SignalEvent(Buy(q.market, q.ts, notional, tier))], entries := 1, traded := {q.market})
    case BelowMinimum => NO_TOTALS.(belowMinimum := 1)
    case Suppressed(sample) => NO_TOTALS.(samples := [sample])
    case _ => NO_TOTALS
  }

  function OutcomeTotals(cfg: Config, outcome: Outcome, bucket: Bucket): Totals {
    match outcome
    case HeldOpen => NO_TOTALS.(blockedOpen := 1)
    case Exited(p, q, reason) =>
      NO_TOTALS.(events := [SignalEvent(Sell(p.market, q.ts, reason, false))], exits := 1, blockedAfterExit := 1)
    case _ => Add(ScanTotals(cfg, bucket), ActionTotals(outcome))
  }

  function BucketTotals(cfg: Config, core: Core, bucket: Bucket): Totals {
    Add(SnapshotTotals(bucket), OutcomeTotals(cfg, CoreStep(cfg, core, bucket).1, bucket))
  }

  function RunTotals(cfg: Config, core: Core, buckets: seq<Bucket>): Totals {
    if buckets == [] then NO_TOTALS
    else
      var n := |buckets| - 1;
      Add(RunTotals(cfg, core, buckets[..n]), BucketTotals(cfg, CoreAfter(cfg, core, buckets[..n]), buckets[n]))
  }

  // ---------------------------------------------------------------------------------------------
  // The whole run

  datatype RunError = TooManyOpenPositions | NoPoints | MissingSnapshot

  /** The carried-in portfolio, with the open-position state of an earlier run if there is one. */
  datatype InitialState = InitialState(cash: real, positions: seq<Position>, openState: Option<Position>)

  function OpenPositions(positions: seq<Position>): seq<Position> {
    if positions == [] then []
    else
      (if Abs(positions[0].quantity) > MIN_CARRIED_QUANTITY then [positions[0]] else [])
      + OpenPositions(positions[1..])
  }

  function LoadInitialPosition(init: InitialState): Result<Option<Position>, RunError> {
    var open := OpenPositions(init.positions);
    if open == [] then Ok(None)
    else if |open| > 1 then Err(TooManyOpenPositions)
    else if init.openState.Some? then Ok(init.openState)
    else Ok(Some(open[0]))
  }

  datatype Report = Report(totals: Totals, cash: real, openState: Option<Position>, syntheticCloses: nat)

  function SyntheticSnapshot(latest: Snapshot, atMs: int, policy: SyntheticPolicy): Snapshot {
    var moved := latest.(asOfMs := atMs);
    if policy.MarkMid? then
      var mid := (latest.bid + latest.ask) / 2.0;
      moved.(bid := mid, ask := mid, lastTrade := mid)
    else moved
  }

  function SyntheticAtMs(cfg: Config, p: Position, lastTs: int): int {
    MaxInt(lastTs + 1_000, p.enteredAtMs + cfg.exit.maxHoldMs + 1_000)
  }

  /** The end of the run: a position still open is closed artificially, or handed on. */
  function Finish(cfg: Config, policy: SyntheticPolicy, core: Core, totals: Totals, lastTs: int)
    : Result<Report, RunError>
  {
    match core.position
    case None => Ok(Report(totals, core.cash, None, 0))
    case Some(p) =>
      if policy.CarryOpen? then Ok(Report(totals, core.cash, Some(p), 0))
      else if p.market !in totals.latest then Err(MissingSnapshot)
      else
        var at := SyntheticAtMs(cfg, p, lastTs);
        var events := [SnapshotEvent(SyntheticSnapshot(totals.latest[p.market], at, policy)),
                       SignalEvent(Sell(p.market, at, TimeStop, true))];
        Ok(Report(totals.(events := totals.events + events, exits := totals.exits + 1), core.cash, None, 1))
  }

  /** One run over its buckets, the last of which is at `lastTs`. */
  function Replay(cfg: Config, policy: SyntheticPolicy, start: Core, buckets: seq<Bucket>, lastTs: int)
    : Result<Report, RunError>
  {
    Finish(cfg, policy, CoreAfter(cfg, start, buckets), RunTotals(cfg, start, buckets), lastTs)
  }

  function BuildScenario(cfg: Config, policy: SyntheticPolicy, init: InitialState, points: seq<Point>)
    : Result<Report, RunError>
  {
    match LoadInitialPosition(init)
    case Err(e) => Err(e)
    case Ok(position) =>
      if Downsample(points) == [] then Err(NoPoints)
      else
        var kept := Downsample(points);
        Replay(cfg, policy, Core(position, init.cash), Buckets(kept), kept[|kept| - 1].ts)
  }
}
