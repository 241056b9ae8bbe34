/** The replay loop itself: an object whose position, cash, event list and counters are updated in place,
    bucket by bucket, proved to compute what `SessionSpec` says. */
module SessionReplay {
  import opened Basics
  import opened ExitPolicy
  import opened Eligibility
  import opened SessionPoints
  import opened SessionSpec
  import SessionCarry

  /** The mutable position record; its fields are overwritten while the position is held. */
  class PositionState {
    const market: string
    const enteredAtMs: int
    const entryPrice: NonZero
    const quantity: real
    const quoteNotional: real
    var consecutiveNegativeRet1m: int
    var consecutiveBookFailures: int
    var peakBidPrice: real

    constructor (p: Position)
      ensures View() == p
    {
      market, enteredAtMs, entryPrice := p.market, p.enteredAtMs, p.entryPrice;
      quantity, quoteNotional := p.quantity, p.quoteNotional;
      consecutiveNegativeRet1m, consecutiveBookFailures := p.negativeRet1m, p.bookFailures;
      peakBidPrice := p.peakBid;
    }

    ghost function View(): Position
      reads this
    {
      Position(market, enteredAtMs, entryPrice, quantity, quoteNotional,
               consecutiveNegativeRet1m, consecutiveBookFailures, peakBidPrice)
    }

    method ObservePoint(exit: ExitProfile, q: Point)
      modifies this
      ensures View() == Observe(exit, old(View()), q)
    {
      peakBidPrice := Max(peakBidPrice, q.snapshot.bid);
      if NegativeRet1m(exit, q.ret1mBps) {
        consecutiveNegativeRet1m := consecutiveNegativeRet1m + 1;
      } else {
        consecutiveNegativeRet1m := 0;
      }
      if FailingBook(exit, q.depthRatio) {
        consecutiveBookFailures := consecutiveBookFailures + 1;
      } else {
        consecutiveBookFailures := 0;
      }
    }
  }

  lemma FirstMaxStep(scores: seq<Option<Score>>, i: nat)
    requires i < |scores|
    ensures var leader := FirstMax(scores[..i]);
            FirstMax(scores[..i + 1])
            == if scores[i].Some? && (leader.None? || ScoreLess(scores[leader.value].value, scores[i].value))
               then Some(i)
               else leader
  {
    assert scores[..i + 1][..i] == scores[..i];
  }

  /** The running candidate tuple: its score and the index it came from. */
  ghost predicate IsLeader(best: Option<(Score, nat)>, scores: seq<Option<Score>>) {
    && (best.None? <==> FirstMax(scores).None?)
    && (best.Some? ==>
          FirstMax(scores) == Some(best.value.1) && scores[best.value.1] == Some(best.value.0))
  }

  lemma ScanStarts(before: Counts, cfg: Config, bucket: Bucket)
    ensures |EntryScores(cfg, bucket)| == |SuppressedScores(cfg, bucket)| == |bucket|
    ensures IsLeader(None, EntryScores(cfg, bucket)[..0]) && IsLeader(None, SuppressedScores(cfg, bucket)[..0])
    ensures Plus(before, CountsIn(cfg, bucket[..0])) == before
  {
  }

  /** After the whole scan the leading candidate is the first of the largest scores. */
  lemma LeaderFound(best: Option<(Score, nat)>, scores: seq<Option<Score>>, n: nat)
    requires n == |scores| && IsLeader(best, scores[..n])
    ensures FirstMax(scores) == if best.Some? then Some(best.value.1) else None
  {
    assert scores[..n] == scores;
  }

  lemma CountsStep(before: Counts, cfg: Config, bucket: Bucket, i: nat)
    requires i < |bucket|
    ensures Plus(before, CountsIn(cfg, bucket[..i + 1]))
         == Plus(Plus(before, CountsIn(cfg, bucket[..i])), CountsOf(cfg.decide(bucket[i])))
  {
    assert bucket[..i + 1][..i] == bucket[..i];
    PlusAssociative(before, CountsIn(cfg, bucket[..i]), CountsOf(cfg.decide(bucket[i])));
  }

  lemma AddScan(cfg: Config, before: Totals, bucket: Bucket)
    ensures before.(evaluated := before.evaluated + 1, counts := Plus(before.counts, CountsIn(cfg, bucket)))
         == Add(before, ScanTotals(cfg, bucket))
  {
    SessionCarry.AddZero(before);
  }

  lemma EvaluationAdds(cfg: Config, before: Totals, cash: real, bucket: Bucket)
    ensures Add(Add(before, ScanTotals(cfg, bucket)), ActionTotals(EntryStep(cfg, cash, bucket).1))
         == Add(before, OutcomeTotals(cfg, EntryStep(cfg, cash, bucket).1, bucket))
  {
    var outcome := EntryStep(cfg, cash, bucket).1;
    OutcomeIsScanAndAction(cfg, outcome, bucket);
    SessionCarry.AddAssociative(before, ScanTotals(cfg, bucket), ActionTotals(outcome));
  }

  lemma OutcomeIsScanAndAction(cfg: Config, outcome: Outcome, bucket: Bucket)
    requires Evaluates(outcome)
    ensures OutcomeTotals(cfg, outcome, bucket) == Add(ScanTotals(cfg, bucket), ActionTotals(outcome))
  {
  }

  lemma PlusAssociative(a: Counts, b: Counts, c: Counts)
    ensures Plus(Plus(a, b), c) == Plus(a, Plus(b, c))
  {
    SumAssociative(a.suppressions, b.suppressions, c.suppressions);
    SumAssociative(a.gateFailures, b.gateFailures, c.gateFailures);
    SumAssociative(a.combinations, b.combinations, c.combinations);
  }

  lemma SumAssociative<T>(a: multiset<T>, b: multiset<T>, c: multiset<T>)
    ensures (a + b) + c == a + (b + c)
  {
  }

  lemma StepIsEntry(cfg: Config, core: Core, bucket: Bucket)
    requires core.position.None?
    ensures CoreStep(cfg, core, bucket) == EntryStep(cfg, core.cash, bucket)
  {
    hide EntryStep;
  }

  lemma RunStarts(cfg: Config, core: Core, before: Totals)
    ensures CoreAfter(cfg, core, []) == core && Add(before, RunTotals(cfg, core, [])) == before
  {
    SessionCarry.AddZero(before);
  }

  lemma RunContinues(cfg: Config, core: Core, buckets: seq<Bucket>, i: nat, before: Totals)
    requires i < |buckets|
    ensures var now := CoreAfter(cfg, core, buckets[..i]);
            && CoreAfter(cfg, core, buckets[..i + 1]) == CoreStep(cfg, now, buckets[i]).0
            && Add(before, RunTotals(cfg, core, buckets[..i + 1]))
            == Add(Add(before, RunTotals(cfg, core, buckets[..i])), BucketTotals(cfg, now, buckets[i]))
  {
    hide CoreStep, BucketTotals;
    assert buckets[..i + 1][..i] == buckets[..i];
    SessionCarry.AddAssociative(before, RunTotals(cfg, core, buckets[..i]),
                                BucketTotals(cfg, CoreAfter(cfg, core, buckets[..i]), buckets[i]));
  }

  class SessionReplay {
    const cfg: Config
    var position: PositionState?
    var cashAvailable: real
    var totals: Totals

    ghost function CoreView(): Core
      reads this, position
    {
      Core(if position == null then None else Some(position.View()), cashAvailable)
    }

    constructor (cfg: Config, carried: Option<Position>, cash: real)
      ensures this.cfg == cfg
      ensures CoreView() == Core(carried, cash) && totals == NO_TOTALS
      ensures position == null || fresh(position)
    {
      this.cfg := cfg;
      if carried.Some? {
        position := new PositionState(carried.value);
      } else {
        position := null;
      }
      cashAvailable, totals := cash, NO_TOTALS;
    }

    method RecordSnapshots(bucket: Bucket)
      modifies `totals
      ensures totals == Add(old(totals), SnapshotTotals(bucket))
    {
      ghost var before := totals;
      for i := 0 to |bucket|
        invariant totals == before.(events := before.events + SnapshotEvents(bucket[..i]),
                                    latest := before.latest + LatestOf(bucket[..i]))
      {
        var point := bucket[i];
        assert bucket[..i + 1][..i] == bucket[..i];
        totals := totals.(events := totals.events + [SnapshotEvent(point.snapshot)],
                          latest := totals.latest[point.market := point.snapshot]);
      }
      assert bucket[..|bucket|] == bucket;
    }

    /** Updates the held position with `q` and decides whether to leave. */
    method ObserveHeld(q: Point) returns (decision: Option<ExitReason>)
      requires position != null
      modifies position
      ensures position.View() == Observe(cfg.exit, old(position.View()), q)
      ensures decision == ExitFor(cfg.exit, position.View(), q)
    {
      position.ObservePoint(cfg.exit, q);
      var holdingMs := if position.enteredAtMs <= 0 then 0 else q.ts - position.enteredAtMs;
      decision := EvaluateExit(
        ExitContext(position.entryPrice, q.snapshot.bid, holdingMs, q.ret1mBps, q.depthRatio,
                    position.consecutiveNegativeRet1m, position.consecutiveBookFailures,
                    position.peakBidPrice, Some(q.ret5mBps)),
        cfg.exit);
    }

    /** Manages the held position: it is updated with its market's point, if the bucket has one, and sold on
        an exit decision; either way no entry is evaluated in this bucket. */
    method ManagePosition(bucket: Bucket)
      requires position != null
      modifies this, position
      ensures CoreView() == CoreStep(cfg, old(CoreView()), bucket).0
      ensures totals == Add(old(totals), OutcomeTotals(cfg, CoreStep(cfg, old(CoreView()), bucket).1, bucket))
      ensures position == null || position == old(position)
    {
      SessionCarry.AddZero(totals);
      var decision: Option<ExitReason> := None;
      var current := HeldPoint(bucket, position.market);
      if current.Some? {
        decision := ObserveHeld(current.value);
      }
      if decision.Some? {
        var q := current.value;
        var signal := Sell(position.market, q.ts, decision.value, false);
        totals := totals.(events := totals.events + [SignalEvent(signal)], exits := totals.exits + 1);
        cashAvailable := cashAvailable + position.quantity * q.snapshot.bid;
        position := null;
      }
      if position != null {
        totals := totals.(blockedOpen := totals.blockedOpen + 1);
      } else {
        totals := totals.(blockedAfterExit := totals.blockedAfterExit + 1);
      }
    }

    static method CountFields(failures: seq<GateFailure>, before: multiset<GateField>)
      returns (after: multiset<GateField>)
      ensures after == before + FieldCounts(failures)
    {
      after := before;
      for j := 0 to |failures|
        invariant after == before + FieldCounts(failures[..j])
      {
        assert failures[..j + 1][..j] == failures[..j];
        after := after + multiset{failures[j].field};
      }
      assert failures[..|failures|] == failures;
    }

    /** Counts one decision under its reason, its failing fields and their combination, if it suppresses. */
    method CountDecision(d: Decision)
      modifies `totals
      ensures totals == old(totals).(counts := Plus(old(totals).counts, CountsOf(d)))
    {
      if d.tier.None? {
        if d.suppression.Some? {
          var gateFailures := totals.counts.gateFailures + multiset{TierConfluence};
          var combination := {TierConfluence};
          if d.failures != [] {
            gateFailures := CountFields(d.failures, totals.counts.gateFailures);
            combination := set f | f in d.failures :: f.field;
          }
          totals := totals.(counts := Counts(totals.counts.suppressions + multiset{d.suppression.value}, gateFailures,
                                             totals.counts.combinations + multiset{combination}));
        }
      }
    }

    /** Replaces the leading candidate by a strictly better one. */
    static method Consider(score: Option<Score>, i: nat, best: Option<(Score, nat)>, ghost scores: seq<Option<Score>>)
      returns (better: Option<(Score, nat)>)
      requires i < |scores| && scores[i] == score
      requires IsLeader(best, scores[..i])
      ensures IsLeader(better, scores[..i + 1])
    {
      FirstMaxStep(scores, i);
      better := best;
      if score.Some? {
        if best.None? || ScoreLess(best.value.0, score.value) {
          better := Some((score.value, i));
        }
      }
    }

    /** Offers point `i` of the bucket to both races. */
    method ConsiderPoint(bucket: Bucket, i: nat, best: Option<(Score, nat)>, bestSuppressed: Option<(Score, nat)>)
      returns (best': Option<(Score, nat)>, bestSuppressed': Option<(Score, nat)>)
      requires i < |bucket|
      requires IsLeader(best, EntryScores(cfg, bucket)[..i])
      requires IsLeader(bestSuppressed, SuppressedScores(cfg, bucket)[..i])
      ensures IsLeader(best', EntryScores(cfg, bucket)[..i + 1])
      ensures IsLeader(bestSuppressed', SuppressedScores(cfg, bucket)[..i + 1])
    {
      best' := Consider(EntryScore(cfg, bucket[i]), i, best, EntryScores(cfg, bucket));
      bestSuppressed' := Consider(SuppressedScore(cfg, bucket[i]), i, bestSuppressed, SuppressedScores(cfg, bucket));
    }

    /** Scores every point of the bucket, counting the suppressed ones; returns where the leaders are. */
    method ScanCandidates(bucket: Bucket) returns (best: Option<nat>, suppressed: Option<nat>)
      modifies `totals
      ensures best == FirstMax(EntryScores(cfg, bucket))
      ensures suppressed == FirstMax(SuppressedScores(cfg, bucket))
      ensures totals == old(totals).(counts := Plus(old(totals).counts, CountsIn(cfg, bucket)))
    {
      hide IsLeader, FirstMax, EntryScores, SuppressedScores, CountsIn, CountsOf, Plus;
      ghost var before := totals;
      ScanStarts(before.counts, cfg, bucket);
      var bestCandidate: Option<(Score, nat)>, bestSuppressed: Option<(Score, nat)> := None, None;
      for i := 0 to |bucket|
        invariant IsLeader(bestCandidate, EntryScores(cfg, bucket)[..i])
        invariant IsLeader(bestSuppressed, SuppressedScores(cfg, bucket)[..i])
        invariant totals == before.(counts := Plus(before.counts, CountsIn(cfg, bucket[..i])))
      {
        CountsStep(before.counts, cfg, bucket, i);
        CountDecision(cfg.decide(bucket[i]));
        bestCandidate, bestSuppressed := ConsiderPoint(bucket, i, bestCandidate, bestSuppressed);
      }
      assert bucket[..|bucket|] == bucket;
      LeaderFound(bestCandidate, EntryScores(cfg, bucket), |bucket|);
      LeaderFound(bestSuppressed, SuppressedScores(cfg, bucket), |bucket|);
      best := if bestCandidate.Some? then Some(bestCandidate.value.1) else None;
      suppressed := if bestSuppressed.Some? then Some(bestSuppressed.value.1) else None;
    }

    /** Enters at the best eligible point, or records the best suppressed one. */
    method TakeDecision(bucket: Bucket, best: Option<nat>, suppressed: Option<nat>)
      requires position == null
      requires best.Some? ==> best.value < |bucket| && cfg.decide(bucket[best.value]).tier.Some?
      requires suppressed.Some? ==>
                 suppressed.value < |bucket| && cfg.decide(bucket[suppressed.value]).suppression.Some?
      modifies `position, `cashAvailable, `totals
      ensures CoreView() == EntryDecision(cfg, old(cashAvailable), bucket, best, suppressed).0
      ensures totals
           == Add(old(totals), ActionTotals(EntryDecision(cfg, old(cashAvailable), bucket, best, suppressed).1))
      ensures position == null || fresh(position)
    {
      hide RequestedNotional, Plus;
      SessionCarry.AddZero(totals);
      if best.Some? {
        var point := bucket[best.value];
        var notional := RequestedNotional(cfg, cashAvailable, point);
        if notional >= MIN_ENTRY_NOTIONAL_KRW {
          var signal := Buy(point.market, point.ts, notional, cfg.decide(point).tier.value);
          totals := totals.(events := totals.events + [SignalEvent(signal)], entries := totals.entries + 1,
                            traded := totals.traded + {point.market});
          position := new PositionState(Open(point, notional));
          cashAvailable := cashAvailable - notional;
        } else {
          totals := totals.(belowMinimum := totals.belowMinimum + 1);
        }
      } else if suppressed.Some? {
        var point := bucket[suppressed.value];
        var decision := cfg.decide(point);
        var sample := Sample(point, decision.suppression.value, decision.failures,
                             RequestedNotional(cfg, cashAvailable, point));
        totals := totals.(samples := totals.samples + [sample]);
      }
    }

    /** Without a position: scan the candidates and act on the leaders. */
    method EvaluateEntryBucket(bucket: Bucket)
      requires position == null
      modifies `position, `cashAvailable, `totals
      ensures CoreView() == EntryStep(cfg, old(cashAvailable), bucket).0
      ensures totals == Add(old(totals), OutcomeTotals(cfg, EntryStep(cfg, old(cashAvailable), bucket).1, bucket))
      ensures position == null || fresh(position)
    {
      ghost var before := totals;
      totals := totals.(evaluated := totals.evaluated + 1);
      var best, suppressed := ScanCandidates(bucket);
      AddScan(cfg, before, bucket);
      TakeDecision(bucket, best, suppressed);
      EvaluationAdds(cfg, before, old(cashAvailable), bucket);
    }

    /** One pass of the main loop. */
    method Step(bucket: Bucket)
      modifies this, position
      ensures CoreView() == CoreStep(cfg, old(CoreView()), bucket).0
      ensures totals == Add(old(totals), BucketTotals(cfg, old(CoreView()), bucket))
      ensures position == null || position == old(position) || fresh(position)
    {
      hide CoreStep, EntryStep, OutcomeTotals, SnapshotTotals, Add;
      ghost var outcome := CoreStep(cfg, CoreView(), bucket).1;
      if position == null {
        StepIsEntry(cfg, CoreView(), bucket);
      }
      SessionCarry.AddAssociative(totals, SnapshotTotals(bucket), OutcomeTotals(cfg, outcome, bucket));
      RecordSnapshots(bucket);
      if position != null {
        ManagePosition(bucket);
      } else {
        EvaluateEntryBucket(bucket);
      }
    }

    /** The main loop over all buckets. */
    method Run(buckets: seq<Bucket>)
      modifies this, position
      ensures CoreView() == CoreAfter(cfg, old(CoreView()), buckets)
      ensures totals == Add(old(totals), RunTotals(cfg, old(CoreView()), buckets))
      ensures position == null || position == old(position) || fresh(position)
    {
      hide CoreAfter, RunTotals, CoreStep, BucketTotals, Add;
      ghost var core, before := CoreView(), totals;
      RunStarts(cfg, core, before);
      for i := 0 to |buckets|
        invariant position == null || position == old(position) || fresh(position)
        invariant CoreView() == CoreAfter(cfg, core, buckets[..i])
        invariant totals == Add(before, RunTotals(cfg, core, buckets[..i]))
      {
        RunContinues(cfg, core, buckets, i, before);
        Step(buckets[i]);
      }
      assert buckets[..|buckets|] == buckets;
    }

    /** The end of the run: the synthetic close, or the hand-over of an open position. */
    method Close(policy: SyntheticPolicy, lastTs: int) returns (r: Result<Report, RunError>)
      modifies `totals
      ensures r == Finish(cfg, policy, old(CoreView()), old(totals), lastTs)
    {
      var closes := 0;
      var open: Option<Position> := None;
      if position != null && !policy.CarryOpen? {
        if position.market !in totals.latest {
          return Err(MissingSnapshot);
        }
        var at := MaxInt(lastTs + 1_000, position.enteredAtMs + cfg.exit.maxHoldMs + 1_000);
        var snapshot := SyntheticSnapshot(totals.latest[position.market], at, policy);
        var signal := Sell(position.market, at, TimeStop, true);
        totals := totals.(events := totals.events + [SnapshotEvent(snapshot), SignalEvent(signal)],
                          exits := totals.exits + 1);
        closes := 1;
      }
      if position != null && policy.CarryOpen? {
        open := Some(Position(position.market, position.enteredAtMs, position.entryPrice, position.quantity,
                              position.quoteNotional, position.consecutiveNegativeRet1m,
                              position.consecutiveBookFailures, position.peakBidPrice));
      }
      r := Ok(Report(totals, cashAvailable, open, closes));
    }
  }

  /** The times in ascending order. */
  method SortTimes(times: seq<int>) returns (r: seq<int>)
    requires forall i, j :: 0 <= i < j < |times| ==> times[i] != times[j]
    ensures Ascending(r) && forall t :: t in r <==> t in times
  {
    r := [];
    for i := 0 to |times|
      invariant Ascending(r)
      invariant forall t :: t in r <==> t in times[..i]
    {
      assert times[..i + 1] == times[..i] + [times[i]];
      r := InsertTime(r, times[i]);
    }
    assert times[..|times|] == times;
  }

  method InsertTime(s: seq<int>, t: int) returns (r: seq<int>)
    requires Ascending(s) && t !in s
    ensures Ascending(r) && forall x :: x in r <==> x in s || x == t
  {
    var i := 0;
    while i < |s| && s[i] < t
      invariant 0 <= i <= |s|
      invariant forall j :: 0 <= j < i ==> s[j] < t
    {
      i := i + 1;
    }
    r := s[..i] + [t] + s[i..];
    if i < |s| {
      var next := s[i];
      assert next in s;
    }
    InsertedInOrder(s, i, t);
    InsertedMembers(s, i, t);
  }

  lemma InsertedInOrder(s: seq<int>, i: nat, t: int)
    requires Ascending(s) && i <= |s|
    requires (forall j :: 0 <= j < i ==> s[j] < t) && (i < |s| ==> t < s[i])
    ensures Ascending(s[..i] + [t] + s[i..])
  {
    forall j | i <= j < |s| ensures t < s[j] {
    }
  }

  lemma InsertedMembers(s: seq<int>, i: nat, t: int)
    requires i <= |s|
    ensures forall x :: x in s[..i] + [t] + s[i..] <==> x in s || x == t
  {
    assert s == s[..i] + s[i..];
  }

  /** The points of one time, sorted by market. */
  method SortByMarket(points: seq<Point>) returns (r: seq<Point>)
    requires forall i, j :: 0 <= i < j < |points| ==> PointLess(points[i], points[j]) || PointLess(points[j], points[i])
    ensures StrictlySorted(r) && forall p :: p in r <==> p in points
  {
    r := [];
    for i := 0 to |points|
      invariant StrictlySorted(r) && forall p :: p in r <==> p in points[..i]
    {
      assert forall q :: q in points[..i] ==> PointLess(q, points[i]) || PointLess(points[i], q);
      r := InsertSorted(r, points[i]);
      assert points[..i + 1] == points[..i] + [points[i]];
    }
    assert points[..|points|] == points;
  }

  /** `groups` is the dictionary of points by timestamp, and `keys` its keys in the order they were added. */
  ghost predicate IsGrouping(groups: map<int, seq<Point>>, keys: seq<int>, points: seq<Point>) {
    && (forall t :: t in groups <==> PointsAt(points, t) != [])
    && (forall t :: t in groups ==> groups[t] == PointsAt(points, t))
    && (forall t :: t in keys <==> t in groups)
    && (forall i, j :: 0 <= i < j < |keys| ==> keys[i] != keys[j])
  }

  lemma PointsAtStep(points: seq<Point>, i: nat, t: int)
    requires i < |points|
    ensures PointsAt(points[..i + 1], t)
         == PointsAt(points[..i], t) + (if points[i].ts == t then [points[i]] else [])
  {
    assert points[..i + 1][..i] == points[..i];
  }

  lemma GroupingGrows(groups: map<int, seq<Point>>, keys: seq<int>, points: seq<Point>, i: nat)
    requires i < |points| && IsGrouping(groups, keys, points[..i])
    ensures var t := points[i].ts;
            IsGrouping(groups[t := if t in groups then groups[t] + [points[i]] else [points[i]]],
                       if t in groups then keys else keys + [t], points[..i + 1])
  {
    hide PointsAt;
    forall t
      ensures PointsAt(points[..i + 1], t)
           == PointsAt(points[..i], t) + (if points[i].ts == t then [points[i]] else [])
    {
      PointsAtStep(points, i, t);
    }
    KeysGrow(keys, points[i].ts);
  }

  lemma KeysGrow(keys: seq<int>, t: int)
    requires forall i, j :: 0 <= i < j < |keys| ==> keys[i] != keys[j]
    ensures forall x :: x in keys + [t] <==> x in keys || x == t
    ensures t !in keys ==>
              var more := keys + [t];
              forall i, j :: 0 <= i < j < |more| ==> more[i] != more[j]
  {
    forall i | 0 <= i < |keys| ensures keys[i] in keys {
    }
  }

  /** Groups the downsampled points by timestamp, and sorts the timestamps and each group. */
  method GroupByTimestamp(points: seq<Point>) returns (buckets: seq<Bucket>)
    requires StrictlySorted(points)
    ensures buckets == Buckets(points)
  {
    hide PointsAt, Buckets, StrictlySorted, IsGrouping;
    var groups: map<int, seq<Point>>, keys: seq<int> := map[], [];
    NothingGrouped();
    for i := 0 to |points|
      invariant IsGrouping(groups, keys, points[..i])
    {
      GroupingGrows(groups, keys, points, i);
      var t := points[i].ts;
      if t in groups {
        groups := groups[t := groups[t] + [points[i]]];
      } else {
        groups, keys := groups[t := [points[i]]], keys + [t];
      }
    }
    assert points[..|points|] == points;
    GroupingTimes(groups, keys, points);
    var times := SortTimes(keys);
    buckets := [];
    for j := 0 to |times|
      invariant |buckets| == j
      invariant forall i :: 0 <= i < j ==> buckets[i] == PointsAt(points, times[i])
    {
      var t := times[j];
      assert t in times;
      GroupSorted(points, t);
      var bucket := SortByMarket(groups[t]);
      SortedListingUnique(bucket, PointsAt(points, t));
      buckets := buckets + [bucket];
    }
    GroupsAreBuckets(points, times, buckets);
  }

  lemma NothingGrouped()
    ensures IsGrouping(map[], [], [])
  {
  }

  lemma GroupingTimes(groups: map<int, seq<Point>>, keys: seq<int>, points: seq<Point>)
    requires IsGrouping(groups, keys, points)
    ensures forall i, j :: 0 <= i < j < |keys| ==> keys[i] != keys[j]
    ensures forall t :: t in keys <==> PointsAt(points, t) != []
    ensures forall t :: t in keys ==> t in groups && groups[t] == PointsAt(points, t)
  {
  }

  lemma GroupSorted(points: seq<Point>, t: int)
    requires StrictlySorted(points)
    ensures var group := PointsAt(points, t);
            && StrictlySorted(group)
            && forall i, j :: 0 <= i < j < |group| ==> PointLess(group[i], group[j])
  {
    PointsAtSorted(points, t);
  }

  method BuildSessionScenario(cfg: Config, policy: SyntheticPolicy, init: InitialState, points: seq<Point>)
    returns (r: Result<Report, RunError>)
    requires Sorted(points)
    ensures r == BuildScenario(cfg, policy, init, points)
  {
    var loaded := LoadInitialPosition(init);
    if loaded.Err? {
      return Err(loaded.error);
    }
    var kept := DownsamplePoints(points);
    if kept == [] {
      return Err(NoPoints);
    }
    DownsampleSorted(points);
    var buckets := GroupByTimestamp(kept);
    var replay := new SessionReplay(cfg, loaded.value, init.cash);
    replay.Run(buckets);
    SessionCarry.AddZero(RunTotals(cfg, Core(loaded.value, init.cash), buckets));
    r := replay.Close(policy, kept[|kept| - 1].ts);
  }
}
