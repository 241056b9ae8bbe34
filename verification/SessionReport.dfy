/** What a report says: every event in order, the counts point by point, and how an open position is closed. */
module SessionReport {
  import opened Basics
  import opened ExitPolicy
  import opened Eligibility
  import opened SessionPoints
  import opened SessionSpec
  import opened SessionEntries
  import opened SessionSafety
  import opened SessionHistory
  import SessionCarry

  // ---------------------------------------------------------------------------------------------
  // Events, samples and markets, bucket by bucket

  function Shots(bucket: Bucket): seq<Event> {
    seq(|bucket|, i requires 0 <= i < |bucket| => SnapshotEvent(bucket[i].snapshot))
  }

  lemma {:induction false} SnapshotEventsAreShots(bucket: Bucket)
    ensures SnapshotEvents(bucket) == Shots(bucket)
  {
    if bucket != [] {
      var n := |bucket| - 1;
      SnapshotEventsAreShots(bucket[..n]);
      assert Shots(bucket) == Shots(bucket[..n]) + [SnapshotEvent(bucket[n].snapshot)];
    }
  }

  /** The outcome, as the report shows it. */
  function Shown(outcome: Outcome): seq<Event> {
    match outcome
    case Exited(p, q, reason) => [SignalEvent(Sell(p.market, q.ts, reason, false))]
    case Entered(q, notional, tier) => [SignalEvent(Buy(q.market, q.ts, notional, tier))]
    case _ => []
  }

  /** A bucket adds its snapshots in order and then its signal, its sample and its market, if it has one. */
  lemma BucketIsRecorded(cfg: Config, core: Core, bs: seq<Bucket>)
    requires bs != []
    ensures var before, after := RunTotals(cfg, core, bs[..|bs| - 1]), RunTotals(cfg, core, bs);
            var outcome := OutcomeAt(cfg, core, bs, |bs| - 1);
            && after.events == before.events + (Shots(bs[|bs| - 1]) + Shown(outcome))
            && after.samples == before.samples + (if outcome.Suppressed? then [outcome.sample] else [])
            && after.traded == before.traded + (if outcome.Entered? then {outcome.entryPoint.market} else {})
            && after.belowMinimum == before.belowMinimum + (if outcome.BelowMinimum? then 1 else 0)
  {
    hide CoreStep, OutcomeTotals, Plus, RunTotals;
    var n := |bs| - 1;
    var before := CoreAfter(cfg, core, bs[..n]);
    SnapshotEventsAreShots(bs[n]);
    OutcomeIsRecorded(cfg, CoreStep(cfg, before, bs[n]).1, bs[n]);
    RunStep(cfg, core, bs);
  }

  lemma RunStep(cfg: Config, core: Core, bs: seq<Bucket>)
    requires bs != []
    ensures var n := |bs| - 1;
            var before := CoreAfter(cfg, core, bs[..n]);
            RunTotals(cfg, core, bs) == Add(RunTotals(cfg, core, bs[..n]), BucketTotals(cfg, before, bs[n]))
  {
    hide Add, BucketTotals;
  }

  lemma OutcomeIsRecorded(cfg: Config, outcome: Outcome, bucket: Bucket)
    ensures var t := OutcomeTotals(cfg, outcome, bucket);
            && t.events == Shown(outcome)
            && t.samples == (if outcome.Suppressed? then [outcome.sample] else [])
            && t.traded == (if outcome.Entered? then {outcome.entryPoint.market} else {})
            && t.belowMinimum == (if outcome.BelowMinimum? then 1 else 0)
  {
    hide CountsIn, Plus;
  }

  /** A buy signal of the market is among the events. */
  ghost predicate Buys(events: seq<Event>, market: string) {
    exists e :: e in events && e.SignalEvent? && e.signal.Buy? && e.signal.market == market
  }

  lemma BuysConcat(a: seq<Event>, b: seq<Event>, market: string)
    ensures Buys(a + b, market) <==> Buys(a, market) || Buys(b, market)
  {
  }

  lemma NoBuyInShots(bucket: Bucket, market: string)
    ensures !Buys(Shots(bucket), market)
  {
  }

  lemma BuyShown(outcome: Outcome, market: string)
    ensures Buys(Shown(outcome), market) <==> outcome.Entered? && outcome.entryPoint.market == market
  {
    if outcome.Entered? {
      assert Shown(outcome)[0] in Shown(outcome);
    }
  }

  /** The markets traded are those of the buy signals. */
  lemma {:induction false} TradedAreBought(cfg: Config, core: Core, bs: seq<Bucket>, market: string)
    ensures market in RunTotals(cfg, core, bs).traded <==> Buys(RunTotals(cfg, core, bs).events, market)
  {
    if bs != [] {
      hide RunTotals, OutcomeAt, Shots, Shown, Buys;
      var n := |bs| - 1;
      var outcome, before := OutcomeAt(cfg, core, bs, n), RunTotals(cfg, core, bs[..n]).events;
      TradedAreBought(cfg, core, bs[..n], market);
      BucketIsRecorded(cfg, core, bs);
      BuysConcat(before, Shots(bs[n]) + Shown(outcome), market);
      BuysConcat(Shots(bs[n]), Shown(outcome), market);
      NoBuyInShots(bs[n], market);
      BuyShown(outcome, market);
    }
  }

  // ---------------------------------------------------------------------------------------------
  // The latest snapshots

  lemma {:induction false} LatestOfIsLast(bucket: Bucket, market: string)
    requires forall i, j :: 0 <= i < j < |bucket| ==> bucket[i].market != bucket[j].market
    ensures var q := HeldPoint(bucket, market);
            && (market in LatestOf(bucket) <==> q.Some?)
            && (q.Some? ==> LatestOf(bucket)[market] == q.value.snapshot)
  {
    if bucket != [] {
      var n := |bucket| - 1;
      LatestOfIsLast(bucket[..n], market);
      HeldPointSnoc(bucket, market);
    }
  }

  lemma {:induction false} HeldPointSnoc(bucket: Bucket, market: string)
    requires bucket != []
    ensures HeldPoint(bucket, market)
         == var before, last := HeldPoint(bucket[..|bucket| - 1], market), bucket[|bucket| - 1];
            if before.Some? then before else if last.market == market then Some(last) else None
  {
    if |bucket| > 1 {
      var n := |bucket| - 1;
      HeldPointSnoc(bucket[1..], market);
      assert bucket[1..][..n - 1] == bucket[..n][1..];
    }
  }

  /** The latest snapshot of a market is that of the last point seen of it; there is none iff none was seen. */
  lemma {:induction false} LatestIsLastSeen(cfg: Config, core: Core, bs: seq<Bucket>, market: string)
    requires ValidBuckets(bs)
    ensures var latest, seen := RunTotals(cfg, core, bs).latest, ObservedIn(bs, market);
            && (market in latest <==> seen != [])
            && (seen != [] ==> latest[market] == seen[|seen| - 1].snapshot)
  {
    hide RunTotals, BucketTotals, CoreAfter, Add;
    if bs == [] {
      NothingLatest(cfg, core);
    } else {
      var n := |bs| - 1;
      var before := CoreAfter(cfg, core, bs[..n]);
      LatestIsLastSeen(cfg, core, bs[..n], market);
      assert ValidBucket(bs[n]);
      LatestOfIsLast(bs[n], market);
      SessionCarry.BucketLatest(cfg, before, bs[n]);
      RunStep(cfg, core, bs);
      LatestAdds(RunTotals(cfg, core, bs[..n]), BucketTotals(cfg, before, bs[n]));
    }
  }

  lemma NothingLatest(cfg: Config, core: Core)
    ensures RunTotals(cfg, core, []).latest == map[]
  {
  }

  lemma LatestAdds(a: Totals, b: Totals)
    ensures Add(a, b).latest == a.latest + b.latest
  {
    hide Plus;
  }

  // ---------------------------------------------------------------------------------------------
  // The synthetic close

  /** `shown` is `last` moved to `at`: as it was to sell at its bid, with all prices at the midpoint to mark it. */
  predicate Moved(last: Snapshot, at: int, policy: SyntheticPolicy, shown: Snapshot) {
    && shown == last.(asOfMs := at, bid := shown.bid, ask := shown.ask, lastTrade := shown.lastTrade)
    && (policy == ForceBid ==> shown.bid == last.bid && shown.ask == last.ask && shown.lastTrade == last.lastTrade)
    && (policy == MarkMid ==> shown.bid == shown.ask == shown.lastTrade && shown.bid * 2.0 == last.bid + last.ask)
  }

  /** A second after the last point, or after the time the position may at most be held, whichever is later. */
  predicate ClosingTime(exit: ExitProfile, p: Position, lastTs: int, at: int) {
    && at >= lastTs + 1_000 && at >= p.enteredAtMs + exit.maxHoldMs + 1_000
    && (at == lastTs + 1_000 || at == p.enteredAtMs + exit.maxHoldMs + 1_000)
  }

  /** The report ends with one more snapshot of `last`, moved, and a synthetic sell at the same time. */
  ghost predicate ClosedWith(
    cfg: Config, policy: SyntheticPolicy, events: seq<Event>, p: Position, last: Snapshot, lastTs: int, report: Report)
  {
    && report.openState.None? && report.syntheticCloses == 1
    && |report.totals.events| == |events| + 2 && report.totals.events[..|events|] == events
    && var shot, signal := report.totals.events[|events|], report.totals.events[|events| + 1];
    && shot.SnapshotEvent? && signal.SignalEvent?
    && ClosingTime(cfg.exit, p, lastTs, shot.snapshot.asOfMs)
    && Moved(last, shot.snapshot.asOfMs, policy, shot.snapshot)
    && signal.signal == Sell(p.market, shot.snapshot.asOfMs, TimeStop, true)
  }

  /** How a run ends. Flat, its report is that of its buckets. With a position it is handed over unless it is to be
      closed, and then it is closed on the last snapshot seen of its market; the run fails iff there is none. */
  lemma EndingIsExact(cfg: Config, policy: SyntheticPolicy, start: Core, bs: seq<Bucket>, lastTs: int)
    requires ValidBuckets(bs)
    ensures var r, totals := Replay(cfg, policy, start, bs, lastTs), RunTotals(cfg, start, bs);
            var end := CoreAfter(cfg, start, bs);
            && (end.position.None? || policy == CarryOpen ==> r == Ok(Report(totals, end.cash, end.position, 0)))
            && (end.position.Some? && policy != CarryOpen ==>
                  var p := end.position.value;
                  var seen := ObservedIn(bs, p.market);
                  && (r == Err(MissingSnapshot) <==> seen == [])
                  && (r.Err? ==> r.error == MissingSnapshot)
                  && (r.Ok? ==>
                        && r.value.cash == end.cash
                        && ClosedWith(cfg, policy, totals.events, p, seen[|seen| - 1].snapshot, lastTs, r.value)))
  {
    hide RunTotals, CoreAfter, ObservedIn, ClosingTime, Moved;
    var end := CoreAfter(cfg, start, bs);
    if end.position.Some? {
      LatestIsLastSeen(cfg, start, bs, end.position.value.market);
      SyntheticTime(cfg, end.position.value, lastTs);
      forall last, at ensures Moved(last, at, policy, SyntheticSnapshot(last, at, policy)) {
        SnapshotMoves(last, at, policy);
      }
    }
  }

  /** A session fails iff two sizeable positions are carried in, or there is no point, or a position that is to be
      closed has a market that no point is of. */
  lemma FailuresOfSession(cfg: Config, policy: SyntheticPolicy, init: InitialState, points: seq<Point>)
    requires Sorted(points)
    ensures var r, buckets := BuildScenario(cfg, policy, init, points), Buckets(Downsample(points));
            var load := LoadInitialPosition(init);
            && (r == Err(TooManyOpenPositions) <==> SessionCarry.TwoSizeable(init.positions))
            && (r == Err(NoPoints) <==> !SessionCarry.TwoSizeable(init.positions) && points == [])
            && (r == Err(MissingSnapshot)
                <==> && load.Ok? && points != [] && policy != CarryOpen
                     && var end := CoreAfter(cfg, Core(load.value, init.cash), buckets).position;
                        end.Some? && ObservedIn(buckets, end.value.market) == [])
  {
    hide CoreAfter, RunTotals, ObservedIn, Buckets, Downsample, Finish;
    SessionCarry.LoadIsExact(init);
    SessionCarry.DownsampleNonEmpty(points);
    DownsampleSorted(points);
    var kept, load := Downsample(points), LoadInitialPosition(init);
    BucketsPartition(kept);
    if load.Ok? && kept != [] {
      EndingIsExact(cfg, policy, Core(load.value, init.cash), Buckets(kept), kept[|kept| - 1].ts);
    }
  }

  lemma SyntheticTime(cfg: Config, p: Position, lastTs: int)
    ensures ClosingTime(cfg.exit, p, lastTs, SyntheticAtMs(cfg, p, lastTs))
  {
  }

  lemma SnapshotMoves(last: Snapshot, at: int, policy: SyntheticPolicy)
    ensures Moved(last, at, policy, SyntheticSnapshot(last, at, policy))
    ensures SyntheticSnapshot(last, at, policy).asOfMs == at
  {
  }

  // ---------------------------------------------------------------------------------------------
  // The counts over suppressed points

  /** The suppressed points of the buckets that the run starts without a position, in order. */
  function SuppressedIn(cfg: Config, core: Core, bs: seq<Bucket>): seq<Point> {
    if bs == [] then []
    else
      var n := |bs| - 1;
      SuppressedIn(cfg, core, bs[..n])
      + (if CoreAfter(cfg, core, bs[..n]).position.None? then SuppressedOf(cfg, bs[n]) else [])
  }

  function SuppressedOf(cfg: Config, bucket: Bucket): seq<Point> {
    if bucket == [] then []
    else
      var q := bucket[|bucket| - 1];
      SuppressedOf(cfg, bucket[..|bucket| - 1]) + (if IsSuppressed(cfg, q) then [q] else [])
  }

  /** The sum of a weight over points. */
  ghost function Tally(points: seq<Point>, weight: Point -> nat): nat {
    if points == [] then 0 else Tally(points[..|points| - 1], weight) + weight(points[|points| - 1])
  }

  /** Suppressed for reason `s`. */
  function ForReason(cfg: Config, s: Suppression): Point -> nat {
    q => One(cfg.decide(q).suppression == Some(s))
  }

  /** How often a decision counts under a field: once per failure, or once as lacking a tier if it has none. */
  function Labels(d: Decision, field: GateField): nat {
    if d.failures == [] then One(field == TierConfluence) else Recorded(d.failures, field)
  }

  function UnderField(cfg: Config, field: GateField): Point -> nat {
    q => Labels(cfg.decide(q), field)
  }

  /** `fields` are the fields the point counts under. */
  ghost function WithFields(cfg: Config, fields: set<GateField>): Point -> nat {
    q => if forall f :: f in fields <==> Labels(cfg.decide(q), f) > 0 then 1 else 0
  }

  /** The counts are exactly those of `points`. */
  ghost predicate Tallies(cfg: Config, points: seq<Point>, c: Counts) {
    && (forall s :: c.suppressions[s] == Tally(points, ForReason(cfg, s)))
    && (forall f :: c.gateFailures[f] == Tally(points, UnderField(cfg, f)))
    && (forall fs :: c.combinations[fs] == Tally(points, WithFields(cfg, fs)))
  }

  lemma {:induction false} TallyConcat(a: seq<Point>, b: seq<Point>, weight: Point -> nat)
    ensures Tally(a + b, weight) == Tally(a, weight) + Tally(b, weight)
  {
    if b == [] {
      assert a + b == a;
    } else {
      var n := |b| - 1;
      assert (a + b)[..|a + b| - 1] == a + b[..n];
      TallyConcat(a, b[..n], weight);
    }
  }

  lemma TalliesAdd(cfg: Config, p: seq<Point>, a: Counts, q: seq<Point>, b: Counts)
    requires Tallies(cfg, p, a) && Tallies(cfg, q, b)
    ensures Tallies(cfg, p + q, Plus(a, b))
  {
    forall s ensures Plus(a, b).suppressions[s] == Tally(p + q, ForReason(cfg, s)) {
      TallyConcat(p, q, ForReason(cfg, s));
    }
    forall f ensures Plus(a, b).gateFailures[f] == Tally(p + q, UnderField(cfg, f)) {
      TallyConcat(p, q, UnderField(cfg, f));
    }
    forall fs ensures Plus(a, b).combinations[fs] == Tally(p + q, WithFields(cfg, fs)) {
      TallyConcat(p, q, WithFields(cfg, fs));
    }
  }

  lemma {:induction false} FieldCountsRecord(failures: seq<GateFailure>, field: GateField)
    ensures FieldCounts(failures)[field] == Recorded(failures, field)
  {
    if failures != [] {
      FieldCountsRecord(failures[..|failures| - 1], field);
    }
  }

  lemma {:induction false} RecordedIsPresent(failures: seq<GateFailure>, field: GateField)
    ensures Recorded(failures, field) > 0 <==> field in set f | f in failures :: f.field
  {
    if failures != [] {
      var n := |failures| - 1;
      RecordedIsPresent(failures[..n], field);
      assert failures == failures[..n] + [failures[n]];
    }
  }

  lemma DecisionTallies(cfg: Config, q: Point)
    ensures Tallies(cfg, if IsSuppressed(cfg, q) then [q] else [], CountsOf(cfg.decide(q)))
  {
    hide Tallies, CountsOf, FieldCounts, FieldsOf;
    if IsSuppressed(cfg, q) {
      var c := CountsOf(cfg.decide(q));
      forall s ensures c.suppressions[s] == Tally([q], ForReason(cfg, s)) {
        TallyOne(q, ForReason(cfg, s));
        CountedOnce(cfg.decide(q), s);
      }
      forall f ensures c.gateFailures[f] == Tally([q], UnderField(cfg, f)) {
        TallyOne(q, UnderField(cfg, f));
        CountedPerField(cfg.decide(q), f);
      }
      forall fs ensures c.combinations[fs] == Tally([q], WithFields(cfg, fs)) {
        TallyOne(q, WithFields(cfg, fs));
        CountedTogether(cfg.decide(q), fs);
      }
      OneTallied(cfg, [q], c);
    } else {
      NothingTallied(cfg);
      NotCounted(cfg.decide(q));
    }
  }

  lemma OneTallied(cfg: Config, points: seq<Point>, c: Counts)
    requires forall s :: c.suppressions[s] == Tally(points, ForReason(cfg, s))
    requires forall f :: c.gateFailures[f] == Tally(points, UnderField(cfg, f))
    requires forall fs :: c.combinations[fs] == Tally(points, WithFields(cfg, fs))
    ensures Tallies(cfg, points, c)
  {
  }

  lemma TallyOne(q: Point, weight: Point -> nat)
    ensures Tally([q], weight) == weight(q)
  {
    assert [q][..0] == [];
  }

  lemma NotCounted(d: Decision)
    requires d.tier.Some? || d.suppression.None?
    ensures CountsOf(d) == NO_COUNTS
  {
  }

  lemma CountedOnce(d: Decision, s: Suppression)
    requires d.tier.None? && d.suppression.Some?
    ensures CountsOf(d).suppressions[s] == One(d.suppression == Some(s))
  {
  }

  lemma CountedPerField(d: Decision, f: GateField)
    requires d.tier.None? && d.suppression.Some?
    ensures CountsOf(d).gateFailures[f] == Labels(d, f)
  {
    FieldCountsRecord(d.failures, f);
  }

  lemma CountedTogether(d: Decision, fs: set<GateField>)
    requires d.tier.None? && d.suppression.Some?
    ensures CountsOf(d).combinations[fs] == if forall f :: f in fs <==> Labels(d, f) > 0 then 1 else 0
  {
    hide FieldCounts, Labels, FieldsOf;
    forall f ensures f in FieldsOf(d.failures) <==> Labels(d, f) > 0 {
      LabelledFields(d, f);
    }
    if forall f :: f in fs <==> Labels(d, f) > 0 {
      assert fs == FieldsOf(d.failures);
    }
  }

  lemma LabelledFields(d: Decision, f: GateField)
    ensures f in FieldsOf(d.failures) <==> Labels(d, f) > 0
  {
    RecordedIsPresent(d.failures, f);
  }

  lemma {:induction false} BucketTallies(cfg: Config, bucket: Bucket)
    ensures Tallies(cfg, SuppressedOf(cfg, bucket), CountsIn(cfg, bucket))
  {
    hide Tallies, CountsOf, Plus, IsSuppressed;
    if bucket == [] {
      NothingTallied(cfg);
    } else {
      var n := |bucket| - 1;
      BucketTallies(cfg, bucket[..n]);
      DecisionTallies(cfg, bucket[n]);
      TalliesAdd(cfg, SuppressedOf(cfg, bucket[..n]), CountsIn(cfg, bucket[..n]),
                 if IsSuppressed(cfg, bucket[n]) then [bucket[n]] else [], CountsOf(cfg.decide(bucket[n])));
    }
  }

  lemma NothingTallied(cfg: Config)
    ensures Tallies(cfg, [], NO_COUNTS)
  {
  }

  lemma CountsStep(cfg: Config, core: Core, bucket: Bucket)
    ensures BucketTotals(cfg, core, bucket).counts
         == Plus(NO_COUNTS, if core.position.None? then Plus(CountsIn(cfg, bucket), NO_COUNTS) else NO_COUNTS)
  {
    hide CountsIn, CoreStep, OutcomeTotals, Plus;
    WhenEvaluated(cfg, core, bucket);
    OutcomeCounts(cfg, CoreStep(cfg, core, bucket).1, bucket);
  }

  lemma WhenEvaluated(cfg: Config, core: Core, bucket: Bucket)
    ensures Evaluates(CoreStep(cfg, core, bucket).1) <==> core.position.None?
  {
  }

  lemma OutcomeCounts(cfg: Config, outcome: Outcome, bucket: Bucket)
    ensures OutcomeTotals(cfg, outcome, bucket).counts
         == if Evaluates(outcome) then Plus(CountsIn(cfg, bucket), NO_COUNTS) else NO_COUNTS
  {
    hide CountsIn, Plus;
  }

  lemma PlusNothing(c: Counts)
    ensures Plus(NO_COUNTS, c) == c == Plus(c, NO_COUNTS)
  {
  }

  /** The counting dictionaries of a run count exactly its suppressed points: each under its reason, under each of its
      failures, and under the combination of its fields. */
  lemma {:induction false} CountsAreExact(cfg: Config, core: Core, bs: seq<Bucket>)
    ensures Tallies(cfg, SuppressedIn(cfg, core, bs), RunTotals(cfg, core, bs).counts)
  {
    hide Tallies, Plus, CountsIn, BucketTotals, CoreAfter;
    if bs == [] {
      NothingTallied(cfg);
    } else {
      var n := |bs| - 1;
      var before := CoreAfter(cfg, core, bs[..n]);
      CountsAreExact(cfg, core, bs[..n]);
      CountsStep(cfg, before, bs[n]);
      PlusNothing(NO_COUNTS);
      PlusNothing(CountsIn(cfg, bs[n]));
      BucketTallies(cfg, bs[n]);
      NothingTallied(cfg);
      var points := if before.position.None? then SuppressedOf(cfg, bs[n]) else [];
      var counts := BucketTotals(cfg, before, bs[n]).counts;
      TalliesAdd(cfg, SuppressedIn(cfg, core, bs[..n]), RunTotals(cfg, core, bs[..n]).counts, points, counts);
    }
  }
}
