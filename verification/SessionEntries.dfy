/** What an entry is: the best eligible point of its bucket, at a size the cash and the book allow, through every gate
    of its profile. */
module SessionEntries {
  import opened Basics
  import opened ExitPolicy
  import opened Eligibility
  import opened SessionPoints
  import opened SessionSpec
  import Lexicographic

  // ---------------------------------------------------------------------------------------------
  // The leader of a bucket

  lemma ScoreLessTransitive(a: Score, b: Score, c: Score)
    requires ScoreLess(a, b) && ScoreLess(b, c)
    ensures ScoreLess(a, c)
  {
    Lexicographic.Transitive(RealLess, a, b, c);
  }

  lemma ScoreLessTotal(a: Score, b: Score)
    ensures a == b || ScoreLess(a, b) || ScoreLess(b, a)
  {
    Lexicographic.Total(RealLess, a, b);
  }

  lemma ScoreLessIrreflexive(a: Score)
    ensures !ScoreLess(a, a)
  {
    Lexicographic.Irreflexive(RealLess, a);
  }

  /** No present score beats `scores[i]`, and every earlier one is strictly beaten. */
  ghost predicate Leads(scores: seq<Option<Score>>, i: nat) {
    && i < |scores| && scores[i].Some?
    && (forall j :: 0 <= j < |scores| && scores[j].Some? ==> !ScoreLess(scores[i].value, scores[j].value))
    && (forall j :: 0 <= j < i && scores[j].Some? ==> ScoreLess(scores[j].value, scores[i].value))
  }

  lemma BelowLeader(a: Score, leader: Score, better: Score)
    requires !ScoreLess(leader, a) && ScoreLess(leader, better)
    ensures ScoreLess(a, better)
  {
    ScoreLessTotal(a, leader);
    if a != leader {
      ScoreLessTransitive(a, leader, better);
    }
  }

  lemma LeadsUnique(scores: seq<Option<Score>>, i: nat, j: nat)
    requires Leads(scores, i) && Leads(scores, j)
    ensures i == j
  {
  }

  lemma NewLeader(scores: seq<Option<Score>>, leader: Option<nat>)
    requires scores != []
    requires var n := |scores| - 1;
             && scores[n].Some?
             && (leader.None? ==> forall j :: 0 <= j < n ==> scores[j].None?)
             && (leader.Some? ==>
                   Leads(scores[..n], leader.value) && ScoreLess(scores[leader.value].value, scores[n].value))
    ensures Leads(scores, |scores| - 1)
  {
    var n := |scores| - 1;
    var last := scores[n].value;
    ScoreLessIrreflexive(last);
    forall j | 0 <= j < n && scores[j].Some?
      ensures ScoreLess(scores[j].value, last) && !ScoreLess(last, scores[j].value)
    {
      var s := scores[j].value;
      assert scores[..n][j] == scores[j];
      BelowLeader(s, scores[leader.value].value, last);
      if ScoreLess(last, s) {
        ScoreLessTransitive(last, s, last);
      }
    }
  }

  lemma KeptLeader(scores: seq<Option<Score>>, leader: nat)
    requires scores != [] && Leads(scores[..|scores| - 1], leader)
    requires var last := scores[|scores| - 1];
             last.None? || !ScoreLess(scores[leader].value, last.value)
    ensures Leads(scores, leader)
  {
    var n := |scores| - 1;
    forall j | 0 <= j < n ensures scores[..n][j] == scores[j] {
    }
  }

  /** The scan picks the first of the largest scores; it finds none exactly when there is none. */
  lemma {:induction false} FirstMaxLeads(scores: seq<Option<Score>>)
    ensures FirstMax(scores).None? <==> forall j :: 0 <= j < |scores| ==> scores[j].None?
    ensures forall i: nat :: FirstMax(scores) == Some(i) <==> Leads(scores, i)
  {
    if scores != [] {
      var n := |scores| - 1;
      FirstMaxLeads(scores[..n]);
      assert forall j :: 0 <= j < n ==> scores[..n][j] == scores[j];
      var leader := FirstMax(scores[..n]);
      if FirstMax(scores) == leader {
        if leader.Some? {
          KeptLeader(scores, leader.value);
        }
      } else {
        NewLeader(scores, leader);
      }
      forall i: nat | Leads(scores, i) ensures FirstMax(scores) == Some(i) {
        LeadsUnique(scores, i, FirstMax(scores).value);
      }
    }
  }

  // ---------------------------------------------------------------------------------------------
  // What the scores rank by

  /** Larger five-minute return, then buy share, then depth ratio, then smaller spread, then `otherwise`. */
  predicate Stronger(p: Point, q: Point, otherwise: bool) {
    if p.ret5mBps != q.ret5mBps then p.ret5mBps > q.ret5mBps
    else if p.buyShare != q.buyShare then p.buyShare > q.buyShare
    else if p.depthRatio != q.depthRatio then p.depthRatio > q.depthRatio
    else if p.spreadBps != q.spreadBps then p.spreadBps < q.spreadBps
    else otherwise
  }

  /** Any point of the high tier before any of the medium one, then the stronger. */
  predicate Outranks(cfg: Config, p: Point, q: Point) {
    if cfg.decide(p).tier == cfg.decide(q).tier then Stronger(p, q, false) else cfg.decide(p).tier == Some(High)
  }

  /** The suppressed points are ranked without tiers, and last by turnover. */
  predicate OutranksSuppressed(p: Point, q: Point) {
    Stronger(p, q, p.turnover24h > q.turnover24h)
  }

  lemma LessFrom(a: Score, b: Score, k: nat)
    requires k < |a| == |b|
    ensures ScoreLess(a[k..], b[k..]) <==> a[k] < b[k] || (a[k] == b[k] && ScoreLess(a[k + 1..], b[k + 1..]))
  {
    assert a[k..][1..] == a[k + 1..] && b[k..][1..] == b[k + 1..];
  }

  lemma LessOfFive(a: Score, b: Score)
    requires |a| == |b| == 5
    ensures ScoreLess(a, b)
       <==> if a[0] != b[0] then a[0] < b[0]
            else if a[1] != b[1] then a[1] < b[1]
            else if a[2] != b[2] then a[2] < b[2]
            else if a[3] != b[3] then a[3] < b[3]
            else a[4] < b[4]
  {
    hide ScoreLess;
    assert a[0..] == a && b[0..] == b;
    LessFrom(a, b, 0);
    LessFrom(a, b, 1);
    LessFrom(a, b, 2);
    LessFrom(a, b, 3);
    LessFrom(a, b, 4);
    NothingLess(a[5..], b[5..]);
  }

  lemma NothingLess(a: Score, b: Score)
    requires b == []
    ensures !ScoreLess(a, b)
  {
  }

  lemma ScoresRank(cfg: Config, p: Point, q: Point)
    ensures EntryScore(cfg, p).Some? <==> cfg.decide(p).tier.Some?
    ensures EntryScore(cfg, p).Some? && EntryScore(cfg, q).Some? ==>
              (ScoreLess(EntryScore(cfg, q).value, EntryScore(cfg, p).value) <==> Outranks(cfg, p, q))
  {
    hide ScoreLess;
    if EntryScore(cfg, p).Some? && EntryScore(cfg, q).Some? {
      LessOfFive(EntryScore(cfg, q).value, EntryScore(cfg, p).value);
    }
  }

  lemma SuppressedScoresRank(cfg: Config, p: Point, q: Point)
    ensures SuppressedScore(cfg, p).Some? && SuppressedScore(cfg, q).Some? ==>
              (ScoreLess(SuppressedScore(cfg, q).value, SuppressedScore(cfg, p).value) <==> OutranksSuppressed(p, q))
  {
    hide ScoreLess;
    if SuppressedScore(cfg, p).Some? && SuppressedScore(cfg, q).Some? {
      LessOfFive(SuppressedScore(cfg, q).value, SuppressedScore(cfg, p).value);
    }
  }

  predicate Eligible(cfg: Config, p: Point) {
    cfg.decide(p).tier.Some?
  }

  /** No tier, but a reason for it. */
  predicate IsSuppressed(cfg: Config, p: Point) {
    cfg.decide(p).tier.None? && cfg.decide(p).suppression.Some?
  }

  /** `q` is eligible, no eligible point of the bucket outranks it, and it outranks those before it. */
  ghost predicate IsBest(cfg: Config, bucket: Bucket, q: Point) {
    && Eligible(cfg, q)
    && exists i: nat ::
         && i < |bucket| && bucket[i] == q
         && (forall j :: 0 <= j < |bucket| && Eligible(cfg, bucket[j]) ==> !Outranks(cfg, bucket[j], q))
         && (forall j :: 0 <= j < i && Eligible(cfg, bucket[j]) ==> Outranks(cfg, q, bucket[j]))
  }

  ghost predicate IsBestSuppressed(cfg: Config, bucket: Bucket, q: Point) {
    && IsSuppressed(cfg, q)
    && exists i: nat ::
         && i < |bucket| && bucket[i] == q
         && (forall j :: 0 <= j < |bucket| && IsSuppressed(cfg, bucket[j]) ==> !OutranksSuppressed(bucket[j], q))
         && (forall j :: 0 <= j < i && IsSuppressed(cfg, bucket[j]) ==> OutranksSuppressed(q, bucket[j]))
  }

  lemma LeaderIsBest(cfg: Config, bucket: Bucket, i: nat)
    requires Leads(EntryScores(cfg, bucket), i)
    ensures IsBest(cfg, bucket, bucket[i])
  {
    hide ScoreLess, Outranks, EntryScore;
    var q, scores := bucket[i], EntryScores(cfg, bucket);
    ScoresRank(cfg, q, q);
    forall j | 0 <= j < |bucket| && Eligible(cfg, bucket[j])
      ensures !Outranks(cfg, bucket[j], q) && (j < i ==> Outranks(cfg, q, bucket[j]))
    {
      assert scores[j] == EntryScore(cfg, bucket[j]);
      ScoresRank(cfg, bucket[j], q);
      ScoresRank(cfg, q, bucket[j]);
    }
  }

  lemma LeaderIsBestSuppressed(cfg: Config, bucket: Bucket, i: nat)
    requires Leads(SuppressedScores(cfg, bucket), i)
    ensures IsBestSuppressed(cfg, bucket, bucket[i])
  {
    hide ScoreLess, OutranksSuppressed;
    var q, scores := bucket[i], SuppressedScores(cfg, bucket);
    forall j | 0 <= j < |bucket| && IsSuppressed(cfg, bucket[j])
      ensures !OutranksSuppressed(bucket[j], q) && (j < i ==> OutranksSuppressed(q, bucket[j]))
    {
      assert scores[j] == SuppressedScore(cfg, bucket[j]);
      SuppressedScoresRank(cfg, bucket[j], q);
      SuppressedScoresRank(cfg, q, bucket[j]);
    }
  }

  // ---------------------------------------------------------------------------------------------
  // How much

  /** Rounding moves a value by at most half a unit of the third decimal. */
  lemma Round3Error(x: real)
    ensures -0.0005 <= Round3(x) - x <= 0.0005
  {
  }

  function Thousandths(k: int): real {
    k as real / 1000.0
  }

  /** `r` is `x` in whole thousandths, to the nearest, in a tie to the even one. */
  ghost predicate IsRounded(x: real, r: real) {
    exists k: int ::
      && r == Thousandths(k)
      && Thousandths(k) - 0.0005 <= x <= Thousandths(k) + 0.0005
      && (x == Thousandths(k) - 0.0005 || x == Thousandths(k) + 0.0005 ==> k % 2 == 0)
  }

  lemma RoundsToNearest(x: real)
    ensures IsRounded(x, Round3(x))
  {
    var down := (x * 1000.0).Floor;
    var k := if Round3(x) == Thousandths(down) then down else down + 1;
    assert Round3(x) == Thousandths(k);
  }

  /** `r` is the smaller of two bounds, rounded. */
  ghost predicate IsSmallerRounded(a: real, b: real, r: real) {
    r <= a + 0.0005 && r <= b + 0.0005 && (IsRounded(a, r) || IsRounded(b, r))
  }

  /** `notional` is, rounded, the smaller of half of the cash, or a fifth in a live session, and of one and a half times
      what the best ask offers. */
  ghost predicate Sized(live: bool, cash: real, q: Point, notional: real) {
    IsSmallerRounded(cash * (if live then 0.2 else 0.5), 1.5 * q.snapshot.ask * q.snapshot.askSize, notional)
  }

  lemma SmallerRounds(a: real, b: real, byCash: real, byBook: real)
    requires a == byCash && b == byBook
    ensures IsSmallerRounded(byCash, byBook, Round3(Min(a, b)))
  {
    hide IsRounded, Round3;
    RoundsToNearest(Min(a, b));
    Round3Error(Min(a, b));
  }

  lemma RequestIsSized(cfg: Config, cash: real, q: Point)
    ensures Sized(cfg.live, cash, q, RequestedNotional(cfg, cash, q))
  {
    hide IsSmallerRounded, Round3, CashLimit, BookLimit;
    Limits(cfg.live, cash, q);
    SmallerRounds(CashLimit(cfg.live, cash), BookLimit(q),
                  cash * (if cfg.live then 0.2 else 0.5), 1.5 * q.snapshot.ask * q.snapshot.askSize);
  }

  lemma Limits(live: bool, cash: real, q: Point)
    ensures CashLimit(live, cash) == cash * (if live then 0.2 else 0.5)
    ensures BookLimit(q) == 1.5 * q.snapshot.ask * q.snapshot.askSize
  {
  }

  // ---------------------------------------------------------------------------------------------
  // The decision

  /** A fresh position in `q`: bought at the ask for `notional` in all, marked at the bid. */
  predicate Bought(position: Option<Position>, q: Point, notional: real) {
    && position.Some?
    && var p := position.value;
    && p.market == q.market && p.enteredAtMs == q.ts
    && p.entryPrice == q.snapshot.ask && p.quantity * q.snapshot.ask == notional == p.quoteNotional
    && p.negativeRet1m == 0 && p.bookFailures == 0 && p.peakBid == q.snapshot.bid
  }

  /** What the entry decision of a bucket means for its points and for the cash. */
  ghost predicate DecidesRight(cfg: Config, cash: real, bucket: Bucket, after: Core, outcome: Outcome) {
    match outcome
    case Entered(q, notional, tier) =>
      && IsBest(cfg, bucket, q) && cfg.decide(q).tier == Some(tier)
      && Sized(cfg.live, cash, q, notional) && notional >= 50_000.0
      && after.cash == cash - notional && Bought(after.position, q, notional)
    case BelowMinimum =>
      && after == Core(None, cash)
      && exists q, notional :: IsBest(cfg, bucket, q) && Sized(cfg.live, cash, q, notional) && notional < 50_000.0
    case Suppressed(sample) =>
      && after == Core(None, cash)
      && (forall i :: 0 <= i < |bucket| ==> !Eligible(cfg, bucket[i]))
      && IsBestSuppressed(cfg, bucket, sample.point)
      && cfg.decide(sample.point).suppression == Some(sample.suppression)
      && cfg.decide(sample.point).failures == sample.failures
      && Sized(cfg.live, cash, sample.point, sample.notional)
    case Idle =>
      && after == Core(None, cash)
      && forall i :: 0 <= i < |bucket| ==> !Eligible(cfg, bucket[i]) && !IsSuppressed(cfg, bucket[i])
    case _ => false
  }

  /** An entry takes the best eligible point of its bucket, at the size that cash and book allow, if that is at least
      50000; only if it is less, or no point is eligible, is nothing bought, and then the recorded sample is the best
      suppressed point. */
  lemma EntryIsBestEligible(cfg: Config, cash: real, bucket: Bucket)
    ensures var (after, outcome) := EntryStep(cfg, cash, bucket);
            DecidesRight(cfg, cash, bucket, after, outcome)
  {
    hide ScoreLess, RequestedNotional, Leads, IsBest, IsBestSuppressed, Sized, EntryScores, SuppressedScores, FirstMax;
    var best, suppressed := FirstMax(EntryScores(cfg, bucket)), FirstMax(SuppressedScores(cfg, bucket));
    FirstMaxLeads(EntryScores(cfg, bucket));
    FirstMaxLeads(SuppressedScores(cfg, bucket));
    ScoresPresent(cfg, bucket);
    if best.Some? {
      LeaderIsBest(cfg, bucket, best.value);
      RequestIsSized(cfg, cash, bucket[best.value]);
    } else if suppressed.Some? {
      LeaderIsBestSuppressed(cfg, bucket, suppressed.value);
      RequestIsSized(cfg, cash, bucket[suppressed.value]);
    }
  }

  lemma ScoresPresent(cfg: Config, bucket: Bucket)
    ensures |EntryScores(cfg, bucket)| == |SuppressedScores(cfg, bucket)| == |bucket|
    ensures forall i :: 0 <= i < |bucket| ==> (EntryScores(cfg, bucket)[i].Some? <==> Eligible(cfg, bucket[i]))
    ensures forall i :: 0 <= i < |bucket| ==> (SuppressedScores(cfg, bucket)[i].Some? <==> IsSuppressed(cfg, bucket[i]))
  {
  }

  // ---------------------------------------------------------------------------------------------
  // The gates of a session

  /** The point itself clears every gate of the profile, and of its market, and the thresholds of a tier. */
  predicate Admits(profile: EntryProfile, q: Point, t: TierGates) {
    && (profile.allowedMarkets.Some? ==> q.market in profile.allowedMarkets.value)
    && q.coverageSec + 0.5 >= profile.coverageSec
    && q.ret5mBps > profile.gates.ret5mBps && q.ret5mBps > 8.0 + q.spreadBps + profile.costBufferBps
    && q.buyShare >= profile.gates.buyShare
    && q.depthRatio >= profile.gates.depthRatio
    && q.spreadBps <= profile.gates.spreadBps
    && q.turnover24h >= profile.gates.turnover24h
    && (profile.maxTurnover24h.Some? ==> q.turnover24h <= profile.maxTurnover24h.value)
    && (profile.minRet1mBps.Some? ==> q.ret1mBps.Some? && q.ret1mBps.value >= profile.minRet1mBps.value)
    && (q.market in ["KRW-ETH", "KRW-XRP"] ==>
          && q.ret1mBps.Some? && q.ret1mBps.value >= 5.0
          && q.buyShare >= 0.75 && q.coverageSec >= 55.5 && q.spreadBps <= 5.5)
    && q.ret5mBps >= t.ret5mBps && q.buyShare >= t.buyShare
    && q.depthRatio >= t.depthRatio && q.spreadBps <= t.spreadBps
  }

  function HighGates(profile: EntryProfile): TierGates {
    if profile.highTier.Some? then profile.highTier.value else TierGates(25.0, 0.60, 1.35, 5.0)
  }

  function MediumGates(profile: EntryProfile): TierGates {
    if profile.mediumTier.Some? then profile.mediumTier.value else TierGates(10.0, 0.57, 1.25, 7.0)
  }

  /** A session finds a point eligible iff it clears the gates and a tier, and suppresses it otherwise, as stale iff a
      coverage window is too short. */
  lemma SessionGates(profile: EntryProfile, exit: ExitProfile, live: bool, q: Point)
    ensures var d, high := ConfigFor(profile, exit, live).decide(q), HighGates(profile);
            && (d.tier == Some(High) <==> Admits(profile, q, high))
            && (d.tier == Some(Medium) <==> Admits(profile, q, MediumGates(profile)) && !Admits(profile, q, high))
            && (d.tier.None? <==> d.suppression.Some?)
            && (d.suppression == Some(DataStale)
                <==> || q.coverageSec + 0.5 < profile.coverageSec
                     || (q.market in ["KRW-ETH", "KRW-XRP"] && q.coverageSec < 55.5))
  {
    hide EvaluateEntry, Clean;
    var m := EntryMetrics(q.ret5mBps, q.buyShare, q.depthRatio, q.spreadBps, q.turnover24h, q.coverageSec,
                          Some(q.market), q.ret1mBps);
    TierIsExact(m, profile);
    EligibleClearsHurdle(m, profile);
    StaleIffCoverageShort(m, profile);
    CleanPoint(profile, q, m);
  }

  lemma CleanPoint(profile: EntryProfile, q: Point, m: EntryMetrics)
    requires m == EntryMetrics(q.ret5mBps, q.buyShare, q.depthRatio, q.spreadBps, q.turnover24h, q.coverageSec,
                               Some(q.market), q.ret1mBps)
    ensures forall t :: Clean(m, profile) && Meets(m, t) <==> Admits(profile, q, t)
  {
    forall t ensures Clean(m, profile) && Meets(m, t) <==> Admits(profile, q, t) {
      if Clean(m, profile) {
        assert forall field :: Misses(m, profile, field) == 0;
        assert Misses(m, profile, MarketAllowed) == 0 && Misses(m, profile, WindowCoverage) == 0;
        assert Misses(m, profile, GateField.Ret5m) == 0 && Misses(m, profile, GateField.BuyShare) == 0;
        assert Misses(m, profile, GateField.DepthRatio) == 0 && Misses(m, profile, Spread) == 0;
        assert Misses(m, profile, Turnover) == 0 && Misses(m, profile, GateField.Ret1m) == 0;
      }
    }
  }

  /** So over a whole session: whatever it buys clears every gate; where it buys nothing although it holds nothing and
      the notional suffices, no point of the bucket does. */
  lemma EverySessionBuysRight(
    profile: EntryProfile, exit: ExitProfile, live: bool, core: Core, bs: seq<Bucket>, n: nat)
    requires n < |bs|
    ensures var cfg := ConfigFor(profile, exit, live);
            var outcome := OutcomeAt(cfg, core, bs, n);
            && (outcome.Entered? ==>
                  && outcome.entryPoint in bs[n]
                  && Admits(profile, outcome.entryPoint,
                            if outcome.tier.High? then HighGates(profile) else MediumGates(profile)))
            && (outcome.Suppressed? || outcome.Idle? ==>
                  forall q :: q in bs[n] ==>
                    !Admits(profile, q, HighGates(profile)) && !Admits(profile, q, MediumGates(profile)))
  {
    hide Admits, DecisionFor, IsBestSuppressed, Sized, EntryStep;
    var cfg := ConfigFor(profile, exit, live);
    var before, outcome := CoreAfter(cfg, core, bs[..n]), OutcomeAt(cfg, core, bs, n);
    EntryIsBestEligible(cfg, before.cash, bs[n]);
    if outcome.Entered? {
      SessionGates(profile, exit, live, outcome.entryPoint);
    } else if outcome.Suppressed? || outcome.Idle? {
      forall q | q in bs[n]
        ensures !Admits(profile, q, HighGates(profile)) && !Admits(profile, q, MediumGates(profile))
      {
        assert !Eligible(cfg, q);
        SessionGates(profile, exit, live, q);
      }
    }
  }
}
