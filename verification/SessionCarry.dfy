/** A run cut in two, with the open position carried across, equals the uncut run. */
module SessionCarry {
  import opened Basics
  import opened ExitPolicy
  import opened SessionPoints
  import opened SessionSpec
  import SessionSafety

  // ---------------------------------------------------------------------------------------------
  // Runs compose

  lemma {:induction false} CoreAfterConcat(cfg: Config, core: Core, a: seq<Bucket>, b: seq<Bucket>)
    ensures CoreAfter(cfg, core, a + b) == CoreAfter(cfg, CoreAfter(cfg, core, a), b)
  {
    hide CoreStep;
    if b == [] {
      assert a + b == a;
    } else {
      var n := |b| - 1;
      assert (a + b)[..|a + b| - 1] == a + b[..n] && (a + b)[|a + b| - 1] == b[n];
      CoreAfterConcat(cfg, core, a, b[..n]);
    }
  }

  lemma AddAssociative(a: Totals, b: Totals, c: Totals)
    ensures Add(Add(a, b), c) == Add(a, Add(b, c))
  {
    var l, r := Add(Add(a, b), c), Add(a, Add(b, c));
    assert l.latest == r.latest;
    assert l.events == r.events && l.samples == r.samples;
  }

  lemma AddZero(a: Totals)
    ensures Add(a, NO_TOTALS) == a
    ensures Add(NO_TOTALS, a) == a
  {
    assert a.events + [] == a.events && [] + a.events == a.events;
    assert a.samples + [] == a.samples && [] + a.samples == a.samples;
    assert a.latest + map[] == a.latest && map[] + a.latest == a.latest;
  }

  lemma {:induction false} RunTotalsConcat(cfg: Config, core: Core, a: seq<Bucket>, b: seq<Bucket>)
    ensures RunTotals(cfg, core, a + b) == Add(RunTotals(cfg, core, a), RunTotals(cfg, CoreAfter(cfg, core, a), b))
  {
    if b == [] {
      assert a + b == a;
      AddZero(RunTotals(cfg, core, a));
    } else {
      var n := |b| - 1;
      assert (a + b)[..|a + b| - 1] == a + b[..n] && (a + b)[|a + b| - 1] == b[n];
      RunTotalsConcat(cfg, core, a, b[..n]);
      CoreAfterConcat(cfg, core, a, b[..n]);
      var mid := CoreAfter(cfg, core, a);
      AddAssociative(RunTotals(cfg, core, a), RunTotals(cfg, mid, b[..n]),
                     BucketTotals(cfg, CoreAfter(cfg, mid, b[..n]), b[n]));
    }
  }

  // ---------------------------------------------------------------------------------------------
  // The latest snapshots cover exactly the markets seen

  predicate Mentions(points: seq<Point>, market: string) {
    exists p :: p in points && p.market == market
  }

  lemma {:induction false} LatestOfCovers(bucket: Bucket, market: string)
    ensures market in LatestOf(bucket) <==> Mentions(bucket, market)
  {
    if bucket != [] {
      var n := |bucket| - 1;
      LatestOfCovers(bucket[..n], market);
      MentionsConcat(bucket[..n], [bucket[n]], market);
      assert bucket == bucket[..n] + [bucket[n]];
      assert Mentions([bucket[n]], market) <==> bucket[n].market == market by {
        assert bucket[n] in [bucket[n]];
      }
    }
  }

  lemma MentionsConcat(a: seq<Point>, b: seq<Point>, market: string)
    ensures Mentions(a + b, market) <==> Mentions(a, market) || Mentions(b, market)
  {
    if Mentions(a, market) {
      var p :| p in a && p.market == market;
      assert p in a + b;
    }
    if Mentions(b, market) {
      var p :| p in b && p.market == market;
      assert p in a + b;
    }
  }

  lemma BucketLatest(cfg: Config, core: Core, bucket: Bucket)
    ensures BucketTotals(cfg, core, bucket).latest == LatestOf(bucket)
  {
    var outcome := CoreStep(cfg, core, bucket).1;
    OutcomeLatest(cfg, outcome, bucket);
    AddNoLatest(SnapshotTotals(bucket), OutcomeTotals(cfg, outcome, bucket));
  }

  lemma OutcomeLatest(cfg: Config, outcome: Outcome, bucket: Bucket)
    ensures OutcomeTotals(cfg, outcome, bucket).latest == map[]
  {
  }

  lemma AddNoLatest(a: Totals, b: Totals)
    requires b.latest == map[]
    ensures Add(a, b).latest == a.latest
  {
  }

  lemma AddLatest(a: Totals, b: Totals, market: string)
    ensures market in Add(a, b).latest <==> market in a.latest || market in b.latest
  {
  }

  lemma {:induction false} LatestCovers(cfg: Config, core: Core, bs: seq<Bucket>, market: string)
    ensures market in RunTotals(cfg, core, bs).latest <==> Mentions(Flatten(bs), market)
  {
    if bs != [] {
      var n := |bs| - 1;
      var before := CoreAfter(cfg, core, bs[..n]);
      LatestCovers(cfg, core, bs[..n], market);
      BucketLatest(cfg, before, bs[n]);
      AddLatest(RunTotals(cfg, core, bs[..n]), BucketTotals(cfg, before, bs[n]), market);
      LatestOfCovers(bs[n], market);
      MentionsConcat(Flatten(bs[..n]), bs[n], market);
    }
  }

  // ---------------------------------------------------------------------------------------------
  // The hand-over

  /** The portfolio a follow-up session is started from: the cash, the position still open, and its state. */
  function Resume(report: Report): InitialState {
    InitialState(report.cash, if report.openState.Some? then [report.openState.value] else [], report.openState)
  }

  /** The report of two sessions run one after the other. */
  function Joined(first: Report, second: Report): Report {
    second.(totals := Add(first.totals, second.totals))
  }

  /** No 15-second bucket of any market straddles the cut, and all of `b` is later than all of `a`. */
  ghost predicate CleanCut(a: seq<Point>, b: seq<Point>) {
    && Sorted(a)
    && Sorted(b)
    && (forall p, q :: p in a && q in b ==> p.ts < q.ts && Key(p) != Key(q))
  }

  /** More than a trillionth of a unit, bought or sold. */
  predicate Sizeable(p: Position) {
    p.quantity > 0.000000000001 || p.quantity < -0.000000000001
  }

  /** The hand-over restores the open position exactly when it is not dust. */
  lemma ResumeRestoresPosition(report: Report)
    ensures LoadInitialPosition(Resume(report)) == Ok(report.openState)
       <==> (report.openState.Some? ==> Sizeable(report.openState.value))
  {
    if report.openState.Some? {
      var p := report.openState.value;
      assert [p][1..] == [];
      assert OpenPositions([p]) == if Abs(p.quantity) > MIN_CARRIED_QUANTITY then [p] else [];
    }
  }

  ghost predicate TwoSizeable(positions: seq<Position>) {
    exists i, j :: 0 <= i < j < |positions| && Sizeable(positions[i]) && Sizeable(positions[j])
  }

  lemma {:induction false} OpenAreSizeable(positions: seq<Position>)
    ensures forall p :: p in OpenPositions(positions) <==> p in positions && Sizeable(p)
  {
    if positions != [] {
      OpenAreSizeable(positions[1..]);
      assert positions == [positions[0]] + positions[1..];
    }
  }

  lemma {:induction false} SeveralOpen(positions: seq<Position>)
    ensures |OpenPositions(positions)| > 1 <==> TwoSizeable(positions)
  {
    if positions != [] {
      hide Sizeable;
      var rest := positions[1..];
      SeveralOpen(rest);
      OpenAreSizeable(rest);
      OpenStep(positions);
      if Sizeable(positions[0]) && OpenPositions(rest) != [] {
        var p := OpenPositions(rest)[0];
        assert p in OpenPositions(rest);
        var j :| 0 <= j < |rest| && rest[j] == p;
        assert Sizeable(positions[j + 1]);
      }
      if TwoSizeable(rest) {
        var i, j :| 0 <= i < j < |rest| && Sizeable(rest[i]) && Sizeable(rest[j]);
        assert Sizeable(positions[i + 1]) && Sizeable(positions[j + 1]);
      } else if TwoSizeable(positions) {
        var i, j :| 0 <= i < j < |positions| && Sizeable(positions[i]) && Sizeable(positions[j]);
        assert i == 0 && rest[j - 1] in OpenPositions(rest);
      }
    }
  }

  lemma OpenStep(positions: seq<Position>)
    requires positions != []
    ensures OpenPositions(positions)
         == (if Sizeable(positions[0]) then [positions[0]] else []) + OpenPositions(positions[1..])
  {
  }

  /** A session starts flat iff no carried position is sizeable, fails iff two are, and else holds the one there is, as
      its detailed state describes it if there is one. */
  lemma LoadIsExact(init: InitialState)
    ensures LoadInitialPosition(init) == Ok(None)
       <==> forall i :: 0 <= i < |init.positions| ==> !Sizeable(init.positions[i])
    ensures LoadInitialPosition(init) == Err(TooManyOpenPositions) <==> TwoSizeable(init.positions)
    ensures LoadInitialPosition(init).Err? ==> LoadInitialPosition(init).error == TooManyOpenPositions
    ensures forall p :: p in init.positions && Sizeable(p) && !TwoSizeable(init.positions) ==>
              LoadInitialPosition(init) == Ok(Some(if init.openState.Some? then init.openState.value else p))
  {
    hide OpenPositions, Sizeable;
    var positions := init.positions;
    var open := OpenPositions(positions);
    OpenAreSizeable(positions);
    SeveralOpen(positions);
    if open != [] {
      assert open[0] in open;
    }
    forall p | p in positions && Sizeable(p) ensures p in open && (|open| == 1 ==> p == open[0]) {
    }
  }

  lemma DownsampleNonEmpty(points: seq<Point>)
    ensures Downsample(points) == [] <==> points == []
  {
    if points != [] {
      DownsampleMembers(points);
      assert HasKey(Downsample(points), Key(points[0]));
    }
  }

  /** A clean cut of the points is a cut of the downsampled points and of the buckets. */
  lemma CutBuckets(a: seq<Point>, b: seq<Point>)
    requires CleanCut(a, b) && a != [] && b != []
    ensures Downsample(a + b) == Downsample(a) + Downsample(b)
    ensures Downsample(a) != [] && Downsample(b) != []
    ensures Buckets(Downsample(a + b)) == Buckets(Downsample(a)) + Buckets(Downsample(b))
    ensures Flatten(Buckets(Downsample(b))) == Downsample(b)
  {
    DownsampleConcat(a, b);
    DownsampleMembers(a);
    DownsampleMembers(b);
    DownsampleSorted(a);
    DownsampleSorted(b);
    DownsampleNonEmpty(a);
    DownsampleNonEmpty(b);
    BucketsPartition(Downsample(b));
    BucketsConcat(Downsample(a), Downsample(b));
  }

  /** Ending the joined run is ending its second part, except that a position whose market the second
      part never saw cannot be closed artificially there. */
  lemma FinishJoined(cfg: Config, policy: SyntheticPolicy, core: Core, first: Report, t2: Totals, lastTs: int)
    ensures var second := Finish(cfg, policy, core, t2, lastTs);
            && (second.Err? <==> !policy.CarryOpen? && core.position.Some? && core.position.value.market !in t2.latest)
            && (second.Err? ==> second.error == MissingSnapshot)
            && (second.Ok? ==>
                  Finish(cfg, policy, core, Add(first.totals, t2), lastTs) == Ok(Joined(first, second.value)))
  {
    var second := Finish(cfg, policy, core, t2, lastTs);
    if core.position.Some? && !policy.CarryOpen? && core.position.value.market in t2.latest {
      var p := core.position.value;
      var at := SyntheticAtMs(cfg, p, lastTs);
      var both := Add(first.totals, t2);
      assert both.latest[p.market] == t2.latest[p.market];
      var tail := [SnapshotEvent(SyntheticSnapshot(t2.latest[p.market], at, policy)),
                   SignalEvent(Sell(p.market, at, TimeStop, true))];
      assert both.events + tail == first.totals.events + (t2.events + tail);
    }
  }

  ghost predicate CarriesOver(report: Report) {
    report.openState.Some? ==> Sizeable(report.openState.value)
  }

  /** `second`, resumed from `first`, adds up to `whole`; it fails only where `whole`, kept open at the
      end, holds a market that the second part never mentions and that has to be closed artificially. */
  ghost predicate AddsUp(
    policy: SyntheticPolicy, first: Report, second: Result<Report, RunError>,
    whole: Result<Report, RunError>, wholeKeptOpen: Result<Report, RunError>, later: seq<Point>)
  {
    && (second.Ok? ==> whole == Ok(Joined(first, second.value)))
    && (second.Err? ==> second.error == MissingSnapshot)
    && wholeKeptOpen.Ok?
    && (second.Err? <==>
        && !policy.CarryOpen?
        && wholeKeptOpen.value.openState.Some?
        && !Mentions(later, wholeKeptOpen.value.openState.value.market))
  }

  /** Carry-forward composes, exactly when the position handed over is not dust. A carry-open session over `a`,
      resumed over the later points `b` under any closing policy, gives the same events, samples, counters,
      final cash and final position as one session over `a + b` iff more than 1e-12 base units, or nothing, are
      handed over. */
  lemma CarryComposes(cfg: Config, policy: SyntheticPolicy, init: InitialState, a: seq<Point>, b: seq<Point>)
    requires CleanCut(a, b) && a != [] && b != []
    requires LoadInitialPosition(init).Ok?
    ensures var first := BuildScenario(cfg, CarryOpen, init, a);
            && first.Ok?
            && (CarriesOver(first.value) <==>
                  AddsUp(policy, first.value,
                         BuildScenario(cfg, policy, Resume(first.value), b),
                         BuildScenario(cfg, policy, init, a + b),
                         BuildScenario(cfg, CarryOpen, init, a + b),
                         Downsample(b)))
  {
    hide AddsUp, CleanCut, BuildScenario;
    var start := Core(LoadInitialPosition(init).value, init.cash);
    DownsampleNonEmpty(a);
    var ka := Downsample(a);
    var first := FirstReport(cfg, start, Buckets(ka), ka[|ka| - 1].ts);
    BuildIsReplay(cfg, CarryOpen, init, a);
    if CarriesOver(first) {
      CarryAddsUp(cfg, policy, init, a, b);
    } else {
      DustBreaksCarry(cfg, policy, init, a, b);
    }
  }

  lemma CarryAddsUp(cfg: Config, policy: SyntheticPolicy, init: InitialState, a: seq<Point>, b: seq<Point>)
    requires CleanCut(a, b) && a != [] && b != []
    requires LoadInitialPosition(init).Ok?
    requires var first := BuildScenario(cfg, CarryOpen, init, a); first.Ok? && CarriesOver(first.value)
    ensures var first := BuildScenario(cfg, CarryOpen, init, a);
            AddsUp(policy, first.value,
                   BuildScenario(cfg, policy, Resume(first.value), b),
                   BuildScenario(cfg, policy, init, a + b),
                   BuildScenario(cfg, CarryOpen, init, a + b),
                   Downsample(b))
  {
    hide Downsample, Buckets, Replay, CoreAfter, RunTotals, Sizeable, CleanCut, AddsUp, BuildScenario;
    CutBuckets(a, b);
    var start := Core(LoadInitialPosition(init).value, init.cash);
    var ka, kb, kw := Downsample(a), Downsample(b), Downsample(a + b);
    var lastTs := kb[|kb| - 1].ts;
    assert kw[|kw| - 1] == kb[|kb| - 1];
    var mid := CoreAfter(cfg, start, Buckets(ka));
    CutRun(cfg, policy, start, Buckets(ka), Buckets(kb), Buckets(kw), lastTs);
    var first := FirstReport(cfg, start, Buckets(ka), ka[|ka| - 1].ts);
    BuildIsReplay(cfg, CarryOpen, init, a);
    assert BuildScenario(cfg, CarryOpen, init, a) == Ok(first);
    ResumeRestoresPosition(first);
    BuildIsReplay(cfg, policy, Resume(first), b);
    assert Core(first.openState, first.cash) == mid;
    assert BuildScenario(cfg, policy, Resume(first), b) == Replay(cfg, policy, mid, Buckets(kb), lastTs);
    BuildIsReplay(cfg, policy, init, a + b);
    BuildIsReplay(cfg, CarryOpen, init, a + b);
    assert first == Report(RunTotals(cfg, start, Buckets(ka)), mid.cash, mid.position, 0);
  }

  lemma BuildIsReplay(cfg: Config, policy: SyntheticPolicy, init: InitialState, points: seq<Point>)
    requires LoadInitialPosition(init).Ok? && Downsample(points) != []
    ensures BuildScenario(cfg, policy, init, points)
         == Replay(cfg, policy, Core(LoadInitialPosition(init).value, init.cash),
                   Buckets(Downsample(points)), Downsample(points)[|Downsample(points)| - 1].ts)
  {
  }

  lemma FirstReport(cfg: Config, start: Core, buckets: seq<Bucket>, ts: int) returns (r: Report)
    ensures Replay(cfg, CarryOpen, start, buckets, ts) == Ok(r)
    ensures Core(r.openState, r.cash) == CoreAfter(cfg, start, buckets)
    ensures r == Report(RunTotals(cfg, start, buckets), CoreAfter(cfg, start, buckets).cash,
                        CoreAfter(cfg, start, buckets).position, 0)
  {
    r := FinishCarries(cfg, CoreAfter(cfg, start, buckets), RunTotals(cfg, start, buckets), ts);
  }

  lemma FinishCarries(cfg: Config, core: Core, totals: Totals, ts: int) returns (r: Report)
    ensures Finish(cfg, CarryOpen, core, totals, ts) == Ok(r)
    ensures r == Report(totals, core.cash, core.position, 0) && Core(r.openState, r.cash) == core
  {
    r := Finish(cfg, CarryOpen, core, totals, ts).value;
  }

  /** The same statement about buckets. */
  lemma CutRun(
    cfg: Config, policy: SyntheticPolicy, start: Core, ba: seq<Bucket>, bb: seq<Bucket>, all: seq<Bucket>, lastTs: int)
    requires all == ba + bb
    ensures var mid := CoreAfter(cfg, start, ba);
            AddsUp(policy, Report(RunTotals(cfg, start, ba), mid.cash, mid.position, 0),
                   Replay(cfg, policy, mid, bb, lastTs),
                   Replay(cfg, policy, start, all, lastTs),
                   Replay(cfg, CarryOpen, start, all, lastTs), Flatten(bb))
  {
    var mid := CoreAfter(cfg, start, ba);
    var end := CoreAfter(cfg, mid, bb);
    CoreAfterConcat(cfg, start, ba, bb);
    RunTotalsConcat(cfg, start, ba, bb);
    var t1, t2 := RunTotals(cfg, start, ba), RunTotals(cfg, mid, bb);
    FinishJoined(cfg, policy, end, Report(t1, mid.cash, mid.position, 0), t2, lastTs);
    if end.position.Some? {
      LatestCovers(cfg, mid, bb, end.position.value.market);
    }
  }

  // ---------------------------------------------------------------------------------------------
  // Dust: the exact failure of the hand-over

  /** A position held at the end was carried in, or belongs to a market of some bucket. */
  lemma {:induction false} PositionHasOrigin(cfg: Config, core: Core, bs: seq<Bucket>)
    ensures var end := CoreAfter(cfg, core, bs);
            end.position.Some? ==>
              || (core.position.Some? && core.position.value.market == end.position.value.market)
              || Mentions(Flatten(bs), end.position.value.market)
  {
    if bs != [] {
      var n := |bs| - 1;
      PositionHasOrigin(cfg, core, bs[..n]);
      var before, after := CoreAfter(cfg, core, bs[..n]), CoreAfter(cfg, core, bs);
      if after.position.Some? {
        var market := after.position.value.market;
        MentionsConcat(Flatten(bs[..n]), bs[n], market);
        if before.position.None? {
          var outcome := CoreStep(cfg, before, bs[n]).1;
          assert outcome.Entered? && outcome.entryPoint in bs[n];
        }
      }
    }
  }

  /** A held market that no bucket mentions is left alone. */
  lemma {:induction false} UnmentionedPositionStays(cfg: Config, core: Core, bs: seq<Bucket>)
    requires core.position.Some? && !Mentions(Flatten(bs), core.position.value.market)
    ensures CoreAfter(cfg, core, bs) == core
  {
    if bs != [] {
      var n := |bs| - 1;
      var market := core.position.value.market;
      MentionsConcat(Flatten(bs[..n]), bs[n], market);
      UnmentionedPositionStays(cfg, core, bs[..n]);
      assert forall p :: p in bs[n] ==> p.market != market;
    }
  }

  /** A run that starts flat can always be ended. */
  lemma FlatRunEnds(cfg: Config, policy: SyntheticPolicy, cash: real, bs: seq<Bucket>, lastTs: int)
    ensures Replay(cfg, policy, Core(None, cash), bs, lastTs).Ok?
  {
    var end := CoreAfter(cfg, Core(None, cash), bs);
    PositionHasOrigin(cfg, Core(None, cash), bs);
    if end.position.Some? {
      LatestCovers(cfg, Core(None, cash), bs, end.position.value.market);
    }
  }

  lemma ReplayCount(cfg: Config, policy: SyntheticPolicy, start: Core, bs: seq<Bucket>, lastTs: int)
    ensures var r := Replay(cfg, policy, start, bs, lastTs);
            r.Ok? ==>
              SessionSafety.Count(start.position) + r.value.totals.entries - r.value.totals.exits
              == SessionSafety.Count(r.value.openState)
  {
    SessionSafety.HeldCount(cfg, start, bs);
    SessionSafety.FinishCount(cfg, policy, SessionSafety.Count(start.position),
                              CoreAfter(cfg, start, bs), RunTotals(cfg, start, bs), lastTs);
  }

  /** A position of at most 1e-12 base units is lost at the hand-over, and then nothing adds up: whatever the later
      points and the closing policy, the entries and exits of the two parts cannot be those of the whole. */
  lemma DustBreaksCarry(cfg: Config, policy: SyntheticPolicy, init: InitialState, a: seq<Point>, b: seq<Point>)
    requires CleanCut(a, b) && a != [] && b != []
    requires LoadInitialPosition(init).Ok?
    requires var first := BuildScenario(cfg, CarryOpen, init, a); first.Ok? && !CarriesOver(first.value)
    ensures var first := BuildScenario(cfg, CarryOpen, init, a);
            !AddsUp(policy, first.value,
                    BuildScenario(cfg, policy, Resume(first.value), b),
                    BuildScenario(cfg, policy, init, a + b),
                    BuildScenario(cfg, CarryOpen, init, a + b),
                    Downsample(b))
  {
    hide CleanCut, Replay, Buckets, AddsUp, CoreAfter, RunTotals, LoadInitialPosition, BuildScenario, Downsample;
    CutBuckets(a, b);
    var start := Core(LoadInitialPosition(init).value, init.cash);
    var ka, kb, kw := Downsample(a), Downsample(b), Downsample(a + b);
    var first := FirstReport(cfg, start, Buckets(ka), ka[|ka| - 1].ts);
    BuildIsReplay(cfg, CarryOpen, init, a);
    DustNotLoaded(first);
    BuildIsReplay(cfg, policy, Resume(first), b);
    BuildIsReplay(cfg, policy, init, a + b);
    FlatRunEnds(cfg, policy, first.cash, Buckets(kb), kb[|kb| - 1].ts);
    ReplayCount(cfg, CarryOpen, start, Buckets(ka), ka[|ka| - 1].ts);
    ReplayCount(cfg, policy, Core(None, first.cash), Buckets(kb), kb[|kb| - 1].ts);
    ReplayCount(cfg, policy, start, Buckets(kw), kw[|kw| - 1].ts);
    LossShows(policy, SessionSafety.Count(start.position), first,
              BuildScenario(cfg, policy, Resume(first), b), BuildScenario(cfg, policy, init, a + b),
              BuildScenario(cfg, CarryOpen, init, a + b), Downsample(b));
  }

  /** Entries and exits tell the difference: `first` ends one up, and `second` starts flat. */
  lemma LossShows(
    policy: SyntheticPolicy, carried: nat, first: Report, second: Result<Report, RunError>,
    whole: Result<Report, RunError>, wholeKeptOpen: Result<Report, RunError>, later: seq<Point>)
    requires first.openState.Some? && second.Ok?
    requires carried + first.totals.entries - first.totals.exits == 1
    requires second.value.totals.entries - second.value.totals.exits == SessionSafety.Count(second.value.openState)
    requires whole.Ok? ==>
               carried + whole.value.totals.entries - whole.value.totals.exits
               == SessionSafety.Count(whole.value.openState)
    ensures !AddsUp(policy, first, second, whole, wholeKeptOpen, later)
  {
    hide Mentions;
  }

  lemma DustNotLoaded(report: Report)
    requires report.openState.Some? && !Sizeable(report.openState.value)
    ensures LoadInitialPosition(Resume(report)) == Ok(None)
  {
    var p := report.openState.value;
    assert [p][1..] == [];
    assert OpenPositions([p]) == [];
  }

  lemma SinglePoint(p: Point)
    ensures Downsample([p]) == [p] && Buckets([p]) == [[p]] && Flatten([[p]]) == [p]
  {
    assert Downsample([p]) == [p] + Downsample([]);
    assert [p][..0] == [];
    assert [[p]][..0] == [];
  }

  /** Such a hand-over happens: a portfolio of one unit whose carried state says 1e-13, and a session that never
      sees its market. */
  lemma DustIsHandedOver(cfg: Config, policy: SyntheticPolicy, q: Point)
      returns (init: InitialState, a: seq<Point>, b: seq<Point>)
    ensures CleanCut(a, b) && a != [] && b != [] && LoadInitialPosition(init).Ok?
    ensures var first := BuildScenario(cfg, CarryOpen, init, a);
            && first.Ok?
            && !AddsUp(policy, first.value,
                       BuildScenario(cfg, policy, Resume(first.value), b),
                       BuildScenario(cfg, policy, init, a + b),
                       BuildScenario(cfg, CarryOpen, init, a + b),
                       Downsample(b))
  {
    hide AddsUp, BuildScenario, CarriesOver;
    a, b := [q.(ts := 0)], [q.(ts := 15_000)];
    init := DustFor(q);
    assert Key(a[0]) != Key(b[0]);
    DustOverOnePoint(cfg, init, a[0]);
    DustBreaksCarry(cfg, policy, init, a, b);
  }

  lemma DustFor(q: Point) returns (init: InitialState)
    ensures |init.positions| == 1 && init.positions[0].quantity == 1.0 && init.openState.Some?
    ensures LoadInitialPosition(init) == Ok(init.openState)
    ensures init.openState.value.market != q.market && init.openState.value.quantity == 0.0000000000001
  {
    var held := Position(q.market + "'", 0, 1.0, 1.0, 1.0, 0, 0, 1.0);
    init := InitialState(0.0, [held], Some(held.(quantity := 0.0000000000001)));
    assert [held][1..] == [];
    assert OpenPositions([held]) == [held];
  }

  lemma DustOverOnePoint(cfg: Config, init: InitialState, q: Point)
    requires LoadInitialPosition(init) == Ok(init.openState) && init.openState.Some?
    requires init.openState.value.market != q.market && init.openState.value.quantity == 0.0000000000001
    ensures var first := BuildScenario(cfg, CarryOpen, init, [q]);
            first.Ok? && !CarriesOver(first.value)
  {
    hide CoreStep, RunTotals, LoadInitialPosition;
    var start := Core(init.openState, init.cash);
    SinglePoint(q);
    BuildIsReplay(cfg, CarryOpen, init, [q]);
    UnmentionedPositionStays(cfg, start, [[q]]);
    var first := FirstReport(cfg, start, [[q]], q.ts);
  }

  // ---------------------------------------------------------------------------------------------
  // A cut inside a bucket: the two parts see more points than the whole

  function SnapshotCount(events: seq<Event>): nat {
    if events == [] then 0
    else SnapshotCount(events[..|events| - 1]) + (if events[|events| - 1].SnapshotEvent? then 1 else 0)
  }

  lemma {:induction false} SnapshotCountConcat(a: seq<Event>, b: seq<Event>)
    ensures SnapshotCount(a + b) == SnapshotCount(a) + SnapshotCount(b)
  {
    if b == [] {
      assert a + b == a;
    } else {
      var n := |b| - 1;
      assert (a + b)[..|a + b| - 1] == a + b[..n] && (a + b)[|a + b| - 1] == b[n];
      SnapshotCountConcat(a, b[..n]);
    }
  }

  lemma {:induction false} BucketSnapshots(bucket: Bucket)
    ensures SnapshotCount(SnapshotEvents(bucket)) == |bucket|
  {
    if bucket != [] {
      var n := |bucket| - 1;
      BucketSnapshots(bucket[..n]);
      assert SnapshotEvents(bucket)[..n] == SnapshotEvents(bucket[..n]) by {
        SnapshotEventsLength(bucket[..n]);
      }
      SnapshotEventsLength(bucket[..n]);
    }
  }

  lemma {:induction false} SnapshotEventsLength(bucket: Bucket)
    ensures |SnapshotEvents(bucket)| == |bucket|
  {
    if bucket != [] {
      SnapshotEventsLength(bucket[..|bucket| - 1]);
    }
  }

  lemma NoOutcomeSnapshots(cfg: Config, outcome: Outcome, bucket: Bucket)
    ensures SnapshotCount(OutcomeTotals(cfg, outcome, bucket).events) == 0
  {
    hide OutcomeTotals;
    SessionSafety.OutcomeEvents(cfg, outcome, bucket);
    var events := OutcomeTotals(cfg, outcome, bucket).events;
    if events != [] {
      assert events[0] in events && events[..0] == [];
    }
  }

  /** A run records one snapshot per point. */
  lemma {:induction false} RunSnapshots(cfg: Config, core: Core, bs: seq<Bucket>)
    ensures SnapshotCount(RunTotals(cfg, core, bs).events) == |Flatten(bs)|
  {
    hide CoreStep, OutcomeTotals;
    if bs != [] {
      var n := |bs| - 1;
      var before := CoreAfter(cfg, core, bs[..n]);
      var outcome := CoreStep(cfg, before, bs[n]).1;
      RunSnapshots(cfg, core, bs[..n]);
      BucketSnapshots(bs[n]);
      NoOutcomeSnapshots(cfg, outcome, bs[n]);
      SnapshotCountConcat(SnapshotEvents(bs[n]), OutcomeTotals(cfg, outcome, bs[n]).events);
      SnapshotCountConcat(RunTotals(cfg, core, bs[..n]).events, BucketTotals(cfg, before, bs[n]).events);
    }
  }

  lemma CloseSnapshots(snapshot: Event, signal: Event)
    requires snapshot.SnapshotEvent? && signal.SignalEvent?
    ensures SnapshotCount([snapshot, signal]) == 1
  {
    var both := [snapshot, signal];
    assert both[..1] == [snapshot] && [snapshot][..0] == [];
    assert SnapshotCount([snapshot]) == SnapshotCount([]) + 1;
    assert SnapshotCount(both) == SnapshotCount(both[..1]);
  }

  lemma FinishSnapshots(cfg: Config, policy: SyntheticPolicy, core: Core, t: Totals, lastTs: int)
    ensures var r := Finish(cfg, policy, core, t, lastTs);
            r.Ok? ==> SnapshotCount(r.value.totals.events) == SnapshotCount(t.events) + r.value.syntheticCloses
  {
    if core.position.Some? && !policy.CarryOpen? && core.position.value.market in t.latest {
      var p := core.position.value;
      var at := SyntheticAtMs(cfg, p, lastTs);
      var snapshot := SnapshotEvent(SyntheticSnapshot(t.latest[p.market], at, policy));
      var signal := SignalEvent(Sell(p.market, at, TimeStop, true));
      CloseSnapshots(snapshot, signal);
      SnapshotCountConcat(t.events, [snapshot, signal]);
    }
  }

  /** A session's snapshots are its thinned points and its artificial closes. */
  lemma SessionSnapshots(cfg: Config, policy: SyntheticPolicy, init: InitialState, points: seq<Point>)
    requires Sorted(points) && points != [] && LoadInitialPosition(init).Ok?
    ensures var r := BuildScenario(cfg, policy, init, points);
            r.Ok? ==> SnapshotCount(r.value.totals.events) == |Downsample(points)| + r.value.syntheticCloses
  {
    hide Finish, CoreAfter, RunTotals, Sorted, Downsample;
    var kept := Downsample(points);
    var start := Core(LoadInitialPosition(init).value, init.cash);
    DownsampleNonEmpty(points);
    DownsampleSorted(points);
    BucketsPartition(kept);
    BuildIsReplay(cfg, policy, init, points);
    RunSnapshots(cfg, start, Buckets(kept));
    FinishSnapshots(cfg, policy, CoreAfter(cfg, start, Buckets(kept)), RunTotals(cfg, start, Buckets(kept)),
                    kept[|kept| - 1].ts);
  }

  lemma HasKeyConcat(a: seq<Point>, b: seq<Point>, k: (string, int))
    ensures HasKey(a + b, k) <==> HasKey(a, k) || HasKey(b, k)
  {
    if HasKey(a, k) {
      var p :| p in a && Key(p) == k;
      assert p in a + b;
    }
    if HasKey(b, k) {
      var p :| p in b && Key(p) == k;
      assert p in a + b;
    }
  }

  /** Two parts keep at least as many points as the whole, and more if a bucket straddles the cut. */
  lemma {:induction false} StraddlingKeepsMore(a: seq<Point>, b: seq<Point>)
    ensures |Downsample(a + b)| <= |Downsample(a)| + |Downsample(b)|
    ensures (exists p :: p in a && HasKey(b, Key(p))) ==> |Downsample(a + b)| < |Downsample(a)| + |Downsample(b)|
  {
    if a == [] {
      assert a + b == b;
    } else {
      var rest := a[1..];
      assert (a + b)[0] == a[0] && (a + b)[1..] == rest + b;
      StraddlingKeepsMore(rest, b);
      HasKeyConcat(rest, b, Key(a[0]));
      if p :| p in a && HasKey(b, Key(p)) {
        if HasKey(rest, Key(a[0])) && p == a[0] {
          var r :| r in rest && Key(r) == Key(a[0]);
        }
      }
    }
  }

  /** So a session cut inside a bucket never composes: whatever is carried over, the two parts record more
      snapshots than the whole. */
  lemma StraddlingCutBreaksSession(
    cfg: Config, policy: SyntheticPolicy, init: InitialState, a: seq<Point>, b: seq<Point>, p: Point, q: Point)
    requires Sorted(a) && Sorted(b) && forall x, y :: x in a && y in b ==> x.ts < y.ts
    requires p in a && q in b && Key(p) == Key(q)
    requires LoadInitialPosition(init).Ok?
    ensures var first := BuildScenario(cfg, CarryOpen, init, a);
            && first.Ok?
            && var second := BuildScenario(cfg, policy, Resume(first.value), b);
            second.Ok? ==> BuildScenario(cfg, policy, init, a + b) != Ok(Joined(first.value, second.value))
  {
    hide BuildScenario, Downsample;
    SortedConcat(a, b);
    assert HasKey(b, Key(p));
    StraddlingKeepsMore(a, b);
    CarryOpenSucceeds(cfg, init, a);
    var first := BuildScenario(cfg, CarryOpen, init, a).value;
    var second := BuildScenario(cfg, policy, Resume(first), b);
    SessionSnapshots(cfg, CarryOpen, init, a);
    SessionSnapshots(cfg, policy, init, a + b);
    if second.Ok? {
      ResumeLoads(first);
      SessionSnapshots(cfg, policy, Resume(first), b);
      SnapshotCountConcat(first.totals.events, second.value.totals.events);
    }
  }

  lemma SortedConcat(a: seq<Point>, b: seq<Point>)
    requires Sorted(a) && Sorted(b) && forall x, y :: x in a && y in b ==> x.ts < y.ts
    ensures Sorted(a + b)
  {
  }

  lemma ResumeLoads(report: Report)
    ensures LoadInitialPosition(Resume(report)).Ok?
  {
    if report.openState.Some? {
      var p := report.openState.value;
      assert [p][1..] == [];
      assert OpenPositions([p]) == if Abs(p.quantity) > MIN_CARRIED_QUANTITY then [p] else [];
    }
  }

  lemma CarryOpenSucceeds(cfg: Config, init: InitialState, points: seq<Point>)
    requires points != [] && LoadInitialPosition(init).Ok?
    ensures var r := BuildScenario(cfg, CarryOpen, init, points);
            r.Ok? && r.value.syntheticCloses == 0
  {
    DownsampleNonEmpty(points);
    BuildIsReplay(cfg, CarryOpen, init, points);
  }
}
