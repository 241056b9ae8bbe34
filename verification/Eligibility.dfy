/** The entry gates and tiers of `org_coin_data/eligibility.py`. */
module Eligibility {
  import opened Basics

  /** The fields a failure can name; the last one is the replay's own label for "no gate failed, no tier reached". */
  datatype GateField =
    | MarketAllowed
    | WindowCoverage
    | Ret5m
    | BuyShare
    | DepthRatio
    | Spread
    | Turnover
    | Ret1m
    | TierConfluence

  datatype Comparator = IsIn | AtLeast | Above | AtMost

  datatype GateFailure = GateFailure(field: GateField, comparator: Comparator, actual: real, threshold: real)

  datatype Tier = High | Medium

  datatype Suppression = DataStale | WeakConfluence

  datatype Decision = Decision(tier: Option<Tier>, suppression: Option<Suppression>, failures: seq<GateFailure>)

  datatype EntryMetrics = EntryMetrics(
    ret5mBps: real,
    buyShare: real,
    depthRatio: real,
    spreadBps: real,
    turnover24h: real,
    coverageSec: real,
    market: Option<string>,
    ret1mBps: Option<real>)

  datatype Gates = Gates(ret5mBps: real, buyShare: real, depthRatio: real, spreadBps: real, turnover24h: real)

  datatype TierGates = TierGates(ret5mBps: real, buyShare: real, depthRatio: real, spreadBps: real)

  datatype EntryProfile = EntryProfile(
    coverageSec: real,
    gates: Gates,
    mediumTier: Option<TierGates>,
    highTier: Option<TierGates>,
    allowedMarkets: Option<seq<string>>,
    costBufferBps: real,
    minRet1mBps: Option<real>,
    maxTurnover24h: Option<real>)

  datatype Overlay = Overlay(minRet1mBps: real, minBuyShare: real, minCoverageSec: real, maxSpreadBps: real)

  const WINDOW_COVERAGE_JITTER_TOLERANCE_SEC := 0.5
  const ONE_WAY_FEE_BPS := 4.0
  const MEDIUM_TIER := TierGates(10.0, 0.57, 1.25, 7.0)
  const HIGH_TIER := TierGates(25.0, 0.60, 1.35, 5.0)

  function OverlayFor(market: Option<string>): Option<Overlay> {
    if market == Some("KRW-ETH") || market == Some("KRW-XRP") then Some(Overlay(5.0, 0.75, 56.0, 5.5))
    else None
  }

  function RequiredRet5mBps(m: EntryMetrics, profile: EntryProfile): real {
    Max(profile.gates.ret5mBps, 2.0 * ONE_WAY_FEE_BPS + m.spreadBps + profile.costBufferBps)
  }

  predicate FailsWindowCoverage(actual: real, required: real) {
    actual + WINDOW_COVERAGE_JITTER_TOLERANCE_SEC < required
  }

  /** One gate: the failure is recorded when the gate does not hold. */
  function Gate(failed: bool, failure: GateFailure): seq<GateFailure> {
    if failed then [failure] else []
  }

  function Ret1mGate(m: EntryMetrics, minimum: real): seq<GateFailure> {
    var actual := if m.ret1mBps.Some? then m.ret1mBps.value else 0.0;
    Gate(m.ret1mBps.None? || actual < minimum, GateFailure(Ret1m, AtLeast, actual, minimum))
  }

  function UniverseFailures(m: EntryMetrics, profile: EntryProfile): seq<GateFailure> {
    Gate(profile.allowedMarkets.Some? && (m.market.None? || m.market.value !in profile.allowedMarkets.value),
         GateFailure(MarketAllowed, IsIn, 0.0, 1.0))
    + Gate(FailsWindowCoverage(m.coverageSec, profile.coverageSec),
           GateFailure(WindowCoverage, AtLeast, m.coverageSec, profile.coverageSec))
  }

  function BookFailures(m: EntryMetrics, profile: EntryProfile): seq<GateFailure> {
    var required := RequiredRet5mBps(m, profile);
    Gate(m.ret5mBps <= required, GateFailure(Ret5m, Above, m.ret5mBps, required))
    + Gate(m.buyShare < profile.gates.buyShare, GateFailure(BuyShare, AtLeast, m.buyShare, profile.gates.buyShare))
    + Gate(m.depthRatio < profile.gates.depthRatio,
           GateFailure(DepthRatio, AtLeast, m.depthRatio, profile.gates.depthRatio))
    + Gate(m.spreadBps > profile.gates.spreadBps, GateFailure(Spread, AtMost, m.spreadBps, profile.gates.spreadBps))
  }

  function TurnoverFailures(m: EntryMetrics, profile: EntryProfile): seq<GateFailure> {
    Gate(m.turnover24h < profile.gates.turnover24h,
         GateFailure(Turnover, AtLeast, m.turnover24h, profile.gates.turnover24h))
    + (if profile.maxTurnover24h.Some? then
         Gate(m.turnover24h > profile.maxTurnover24h.value,
              GateFailure(Turnover, AtMost, m.turnover24h, profile.maxTurnover24h.value))
       else [])
    + (if profile.minRet1mBps.Some? then Ret1mGate(m, profile.minRet1mBps.value) else [])
  }

  function OverlayFailures(m: EntryMetrics): seq<GateFailure> {
    match OverlayFor(m.market)
    case None => []
    case Some(o) =>
      Ret1mGate(m, o.minRet1mBps)
      + Gate(m.buyShare < o.minBuyShare, GateFailure(BuyShare, AtLeast, m.buyShare, o.minBuyShare))
      + Gate(FailsWindowCoverage(m.coverageSec, o.minCoverageSec),
             GateFailure(WindowCoverage, AtLeast, m.coverageSec, o.minCoverageSec))
      + Gate(m.spreadBps > o.maxSpreadBps, GateFailure(Spread, AtMost, m.spreadBps, o.maxSpreadBps))
  }

  function Failures(m: EntryMetrics, profile: EntryProfile): seq<GateFailure> {
    UniverseFailures(m, profile) + BookFailures(m, profile) + TurnoverFailures(m, profile) + OverlayFailures(m)
  }

  predicate ReachesTier(m: EntryMetrics, profile: EntryProfile, tier: TierGates) {
    && m.ret5mBps >= Max(tier.ret5mBps, RequiredRet5mBps(m, profile))
    && m.buyShare >= tier.buyShare
    && m.depthRatio >= tier.depthRatio
    && m.spreadBps <= tier.spreadBps
  }

  function EvaluateEntry(m: EntryMetrics, profile: EntryProfile): Decision {
    var failures := Failures(m, profile);
    var high := if profile.highTier.Some? then profile.highTier.value else HIGH_TIER;
    var medium := if profile.mediumTier.Some? then profile.mediumTier.value else MEDIUM_TIER;
    if failures != [] then
      Decision(None,
               Some(if exists f :: f in failures && f.field == WindowCoverage then DataStale else WeakConfluence),
               failures)
    else if ReachesTier(m, profile, high) then Decision(Some(High), None, [])
    else if ReachesTier(m, profile, medium) then Decision(Some(Medium), None, [])
    else Decision(None, Some(WeakConfluence), [])
  }

  // ---------------------------------------------------------------------------------------------
  // Properties

  /** Every decision is either a tier or a suppression, never both, and an eligible point clears the
      whole round trip: its five-minute return strictly exceeds two fees, the spread and the buffer. */
  lemma EligibleClearsHurdle(m: EntryMetrics, profile: EntryProfile)
    ensures var d := EvaluateEntry(m, profile);
            && (d.tier.Some? <==> d.suppression.None?)
            && (d.tier.Some? ==>
                  && m.ret5mBps > 2.0 * ONE_WAY_FEE_BPS + m.spreadBps + profile.costBufferBps
                  && (profile.allowedMarkets.Some? ==> m.market.Some? && m.market.value in profile.allowedMarkets.value)
                  && m.turnover24h >= profile.gates.turnover24h
                  && m.coverageSec >= profile.coverageSec - 0.5)
  {
  }

  /** A suppression is called stale exactly when a coverage window, the profile's or the market's, is too short. */
  lemma StaleIffCoverageShort(m: EntryMetrics, profile: EntryProfile)
    ensures EvaluateEntry(m, profile).suppression == Some(DataStale)
       <==> || m.coverageSec + 0.5 < profile.coverageSec
            || (OverlayFor(m.market).Some? && m.coverageSec + 0.5 < OverlayFor(m.market).value.minCoverageSec)
  {
    CoverageInUniverse(m, profile);
    CoverageInOverlay(m);
    NoCoverageInBook(m, profile);
    NoCoverageInTurnover(m, profile);
    CoverageInConcat(UniverseFailures(m, profile), BookFailures(m, profile),
                     TurnoverFailures(m, profile), OverlayFailures(m));
    DecisionSuppression(m, profile);
  }

  lemma DecisionSuppression(m: EntryMetrics, profile: EntryProfile)
    ensures EvaluateEntry(m, profile).suppression == Some(DataStale) <==> HasCoverageFailure(Failures(m, profile))
  {
  }

  lemma CoverageInConcat(a: seq<GateFailure>, b: seq<GateFailure>, c: seq<GateFailure>, d: seq<GateFailure>)
    ensures HasCoverageFailure(a + b + c + d)
       <==> HasCoverageFailure(a) || HasCoverageFailure(b) || HasCoverageFailure(c) || HasCoverageFailure(d)
  {
    var all := a + b + c + d;
    assert forall f :: f in all <==> f in a || f in b || f in c || f in d;
  }

  ghost predicate HasCoverageFailure(failures: seq<GateFailure>) {
    exists f :: f in failures && f.field == WindowCoverage
  }

  lemma CoverageInUniverse(m: EntryMetrics, profile: EntryProfile)
    ensures HasCoverageFailure(UniverseFailures(m, profile))
       <==> FailsWindowCoverage(m.coverageSec, profile.coverageSec)
  {
    if FailsWindowCoverage(m.coverageSec, profile.coverageSec) {
      assert GateFailure(WindowCoverage, AtLeast, m.coverageSec, profile.coverageSec) in UniverseFailures(m, profile);
    }
  }

  lemma NoCoverageInBook(m: EntryMetrics, profile: EntryProfile)
    ensures !HasCoverageFailure(BookFailures(m, profile))
  {
  }

  lemma NoCoverageInTurnover(m: EntryMetrics, profile: EntryProfile)
    ensures !HasCoverageFailure(TurnoverFailures(m, profile))
  {
  }

  lemma CoverageInOverlay(m: EntryMetrics)
    ensures HasCoverageFailure(OverlayFailures(m))
       <==> OverlayFor(m.market).Some? && FailsWindowCoverage(m.coverageSec, OverlayFor(m.market).value.minCoverageSec)
  {
    if OverlayFor(m.market).Some? && FailsWindowCoverage(m.coverageSec, OverlayFor(m.market).value.minCoverageSec) {
      assert GateFailure(WindowCoverage, AtLeast, m.coverageSec, OverlayFor(m.market).value.minCoverageSec)
          in OverlayFailures(m);
    }
  }

  /** How far a failed metric is from its threshold (`_gate_failure_deficit`). */
  function Deficit(f: GateFailure): real {
    if f.comparator == AtMost then Max(f.actual - f.threshold, 0.0) else Max(f.threshold - f.actual, 0.0)
  }

  /** A failure that is genuine: it has a positive deficit, except that a return equal to its strict
      threshold and a missing one-minute return fail without being short; a coverage failure is always
      short by more than the half-second tolerance. */
  predicate Genuine(m: EntryMetrics, f: GateFailure) {
    && (f.field == WindowCoverage ==> Deficit(f) > 0.5)
    && (Deficit(f) == 0.0 ==>
          (f.comparator == Above && f.actual == f.threshold) || (f.field == Ret1m && m.ret1mBps.None?))
    && f.field != TierConfluence
  }

  lemma FailuresAreGenuine(m: EntryMetrics, profile: EntryProfile)
    ensures forall f :: f in EvaluateEntry(m, profile).failures ==> Genuine(m, f)
  {
    UniverseGenuine(m, profile);
    BookGenuine(m, profile);
    TurnoverGenuine(m, profile);
    OverlayGenuine(m);
    GenuineConcat(m, UniverseFailures(m, profile), BookFailures(m, profile),
                  TurnoverFailures(m, profile), OverlayFailures(m));
    DecisionFailures(m, profile);
  }

  ghost predicate AllGenuine(m: EntryMetrics, failures: seq<GateFailure>) {
    forall f :: f in failures ==> Genuine(m, f)
  }

  lemma DecisionFailures(m: EntryMetrics, profile: EntryProfile)
    ensures EvaluateEntry(m, profile).failures == Failures(m, profile)
  {
  }

  lemma GenuineConcat(
    m: EntryMetrics, a: seq<GateFailure>, b: seq<GateFailure>, c: seq<GateFailure>, d: seq<GateFailure>)
    requires AllGenuine(m, a) && AllGenuine(m, b) && AllGenuine(m, c) && AllGenuine(m, d)
    ensures AllGenuine(m, a + b + c + d)
  {
  }

  lemma UniverseGenuine(m: EntryMetrics, profile: EntryProfile)
    ensures AllGenuine(m, UniverseFailures(m, profile))
  {
  }

  lemma BookGenuine(m: EntryMetrics, profile: EntryProfile)
    ensures AllGenuine(m, BookFailures(m, profile))
  {
  }

  lemma TurnoverGenuine(m: EntryMetrics, profile: EntryProfile)
    ensures AllGenuine(m, TurnoverFailures(m, profile))
  {
  }

  lemma OverlayGenuine(m: EntryMetrics)
    ensures AllGenuine(m, OverlayFailures(m))
  {
  }

  // ---------------------------------------------------------------------------------------------
  // Completeness: everything that fails is recorded, as often as it fails, and nothing else

  /** ETH and XRP have thresholds of their own. */
  predicate Restricted(market: Option<string>) {
    market == Some("KRW-ETH") || market == Some("KRW-XRP")
  }

  /** The metrics miss the threshold that `f` names. */
  predicate IsFailure(m: EntryMetrics, profile: EntryProfile, f: GateFailure) {
    match f.field
    case MarketAllowed =>
      && f == GateFailure(MarketAllowed, IsIn, 0.0, 1.0)
      && profile.allowedMarkets.Some? && !(m.market.Some? && m.market.value in profile.allowedMarkets.value)
    case WindowCoverage =>
      && f.comparator == AtLeast && f.actual == m.coverageSec && f.actual + 0.5 < f.threshold
      && (f.threshold == profile.coverageSec || (Restricted(m.market) && f.threshold == 56.0))
    case Ret5m =>
      && f.comparator == Above && f.actual == m.ret5mBps && f.actual <= f.threshold
      && f.threshold >= profile.gates.ret5mBps && f.threshold >= 8.0 + m.spreadBps + profile.costBufferBps
      && (f.threshold == profile.gates.ret5mBps || f.threshold == 8.0 + m.spreadBps + profile.costBufferBps)
    case BuyShare =>
      && f.comparator == AtLeast && f.actual == m.buyShare && f.actual < f.threshold
      && (f.threshold == profile.gates.buyShare || (Restricted(m.market) && f.threshold == 0.75))
    case DepthRatio =>
      && f.comparator == AtLeast && f.actual == m.depthRatio && f.actual < f.threshold
      && f.threshold == profile.gates.depthRatio
    case Spread =>
      && f.comparator == AtMost && f.actual == m.spreadBps && f.actual > f.threshold
      && (f.threshold == profile.gates.spreadBps || (Restricted(m.market) && f.threshold == 5.5))
    case Turnover =>
      && f.actual == m.turnover24h
      && (|| (f.comparator == AtLeast && f.actual < f.threshold && f.threshold == profile.gates.turnover24h)
          || (f.comparator == AtMost && f.actual > f.threshold && profile.maxTurnover24h == Some(f.threshold)))
    case Ret1m =>
      && f.comparator == AtLeast
      && (if m.ret1mBps.Some? then f.actual == m.ret1mBps.value && f.actual < f.threshold else f.actual == 0.0)
      && (profile.minRet1mBps == Some(f.threshold) || (Restricted(m.market) && f.threshold == 5.0))
    case TierConfluence => false
  }

  /** What is recorded is exactly what is missed, with the value and the threshold it missed. */
  lemma FailuresAreExact(m: EntryMetrics, profile: EntryProfile, f: GateFailure)
    ensures f in EvaluateEntry(m, profile).failures <==> IsFailure(m, profile, f)
  {
    hide Gate, Ret1mGate, UniverseFailures, BookFailures, TurnoverFailures, OverlayFailures;
    DecisionFailures(m, profile);
    InUniverse(m, profile, f);
    InBook(m, profile, f);
    InTurnover(m, profile, f);
    InOverlay(m, f);
  }

  lemma InUniverse(m: EntryMetrics, profile: EntryProfile, f: GateFailure)
    ensures f in UniverseFailures(m, profile)
       <==> || (f.field == MarketAllowed && IsFailure(m, profile, f))
            || (&& f == GateFailure(WindowCoverage, AtLeast, m.coverageSec, profile.coverageSec)
                && m.coverageSec + 0.5 < profile.coverageSec)
  {
  }

  lemma InBook(m: EntryMetrics, profile: EntryProfile, f: GateFailure)
    ensures f in BookFailures(m, profile)
       <==> || (f.field in {Ret5m, DepthRatio} && IsFailure(m, profile, f))
            || (&& f == GateFailure(BuyShare, AtLeast, m.buyShare, profile.gates.buyShare)
                && m.buyShare < profile.gates.buyShare)
            || (&& f == GateFailure(Spread, AtMost, m.spreadBps, profile.gates.spreadBps)
                && m.spreadBps > profile.gates.spreadBps)
  {
  }

  lemma InTurnover(m: EntryMetrics, profile: EntryProfile, f: GateFailure)
    ensures f in TurnoverFailures(m, profile)
       <==> || (f.field == Turnover && IsFailure(m, profile, f))
            || (f.field == Ret1m && profile.minRet1mBps == Some(f.threshold) && IsFailure(m, profile, f))
  {
  }

  lemma InOverlay(m: EntryMetrics, f: GateFailure)
    ensures f in OverlayFailures(m)
       <==> && Restricted(m.market)
            && (|| (&& f.field == Ret1m && f.comparator == AtLeast && f.threshold == 5.0
                    && (if m.ret1mBps.Some? then f.actual == m.ret1mBps.value < 5.0 else f.actual == 0.0))
                || (f == GateFailure(BuyShare, AtLeast, m.buyShare, 0.75) && m.buyShare < 0.75)
                || (f == GateFailure(WindowCoverage, AtLeast, m.coverageSec, 56.0) && m.coverageSec + 0.5 < 56.0)
                || (f == GateFailure(Spread, AtMost, m.spreadBps, 5.5) && m.spreadBps > 5.5))
  {
  }

  function One(b: bool): nat {
    if b then 1 else 0
  }

  predicate Ret1mBelow(m: EntryMetrics, minimum: real) {
    m.ret1mBps.None? || m.ret1mBps.value < minimum
  }

  /** How many thresholds of a field the metrics miss. */
  function Misses(m: EntryMetrics, profile: EntryProfile, field: GateField): nat {
    match field
    case MarketAllowed =>
      One(profile.allowedMarkets.Some? && !(m.market.Some? && m.market.value in profile.allowedMarkets.value))
    case WindowCoverage =>
      One(m.coverageSec + 0.5 < profile.coverageSec) + One(Restricted(m.market) && m.coverageSec < 55.5)
    case Ret5m => One(m.ret5mBps <= profile.gates.ret5mBps || m.ret5mBps <= 8.0 + m.spreadBps + profile.costBufferBps)
    case BuyShare => One(m.buyShare < profile.gates.buyShare) + One(Restricted(m.market) && m.buyShare < 0.75)
    case DepthRatio => One(m.depthRatio < profile.gates.depthRatio)
    case Spread => One(m.spreadBps > profile.gates.spreadBps) + One(Restricted(m.market) && m.spreadBps > 5.5)
    case Turnover =>
      One(m.turnover24h < profile.gates.turnover24h)
      + One(profile.maxTurnover24h.Some? && m.turnover24h > profile.maxTurnover24h.value)
    case Ret1m =>
      One(profile.minRet1mBps.Some? && Ret1mBelow(m, profile.minRet1mBps.value))
      + One(Restricted(m.market) && Ret1mBelow(m, 5.0))
    case TierConfluence => 0
  }

  /** How many failures name a field. */
  function Recorded(failures: seq<GateFailure>, field: GateField): nat {
    if failures == [] then 0
    else Recorded(failures[..|failures| - 1], field) + One(failures[|failures| - 1].field == field)
  }

  lemma {:induction false} RecordedConcat(a: seq<GateFailure>, b: seq<GateFailure>, field: GateField)
    ensures Recorded(a + b, field) == Recorded(a, field) + Recorded(b, field)
  {
    if b == [] {
      assert a + b == a;
    } else {
      var n := |b| - 1;
      assert (a + b)[..|a + b| - 1] == a + b[..n];
      RecordedConcat(a, b[..n], field);
    }
  }

  lemma RecordedGate(failed: bool, failure: GateFailure, field: GateField)
    ensures Recorded(Gate(failed, failure), field) == One(failed && failure.field == field)
  {
    if failed {
      assert [failure][..0] == [];
    }
  }

  lemma RecordingAdds(field: GateField)
    ensures forall a, b :: Recorded(a + b, field) == Recorded(a, field) + Recorded(b, field)
    ensures forall failed, f :: Recorded(Gate(failed, f), field) == One(failed && f.field == field)
  {
    forall a, b ensures Recorded(a + b, field) == Recorded(a, field) + Recorded(b, field) {
      RecordedConcat(a, b, field);
    }
    forall failed, f ensures Recorded(Gate(failed, f), field) == One(failed && f.field == field) {
      RecordedGate(failed, f, field);
    }
  }

  /** Each field is recorded as often as a threshold of it is missed. */
  lemma FailuresAreCounted(m: EntryMetrics, profile: EntryProfile, field: GateField)
    ensures Recorded(EvaluateEntry(m, profile).failures, field) == Misses(m, profile, field)
  {
    hide Gate, Recorded, UniverseFailures, BookFailures, TurnoverFailures, OverlayFailures;
    RecordingAdds(field);
    UniverseRecorded(m, profile, field);
    BookRecorded(m, profile, field);
    TurnoverRecorded(m, profile, field);
    OverlayRecorded(m, field);
    DecisionFailures(m, profile);
  }

  lemma UniverseRecorded(m: EntryMetrics, profile: EntryProfile, field: GateField)
    ensures Recorded(UniverseFailures(m, profile), field)
         == match field
            case MarketAllowed => Misses(m, profile, MarketAllowed)
            case WindowCoverage => One(m.coverageSec + 0.5 < profile.coverageSec)
            case _ => 0
  {
    hide Gate, Recorded;
    RecordingAdds(field);
  }

  lemma BookRecorded(m: EntryMetrics, profile: EntryProfile, field: GateField)
    ensures Recorded(BookFailures(m, profile), field)
         == match field
            case Ret5m => Misses(m, profile, Ret5m)
            case BuyShare => One(m.buyShare < profile.gates.buyShare)
            case DepthRatio => Misses(m, profile, DepthRatio)
            case Spread => One(m.spreadBps > profile.gates.spreadBps)
            case _ => 0
  {
    hide Gate, Recorded;
    RecordingAdds(field);
  }

  lemma TurnoverRecorded(m: EntryMetrics, profile: EntryProfile, field: GateField)
    ensures Recorded(TurnoverFailures(m, profile), field)
         == match field
            case Turnover => Misses(m, profile, Turnover)
            case Ret1m => One(profile.minRet1mBps.Some? && Ret1mBelow(m, profile.minRet1mBps.value))
            case _ => 0
  {
    hide Gate, Recorded;
    RecordingAdds(field);
    assert Recorded([], field) == 0 by {
      NothingRecorded(field);
    }
  }

  lemma NothingRecorded(field: GateField)
    ensures Recorded([], field) == 0
  {
  }

  lemma OverlayRecorded(m: EntryMetrics, field: GateField)
    ensures Recorded(OverlayFailures(m), field)
         == match field
            case WindowCoverage => One(Restricted(m.market) && m.coverageSec < 55.5)
            case BuyShare => One(Restricted(m.market) && m.buyShare < 0.75)
            case Spread => One(Restricted(m.market) && m.spreadBps > 5.5)
            case Ret1m => One(Restricted(m.market) && Ret1mBelow(m, 5.0))
            case _ => 0
  {
    hide Gate, Recorded;
    RecordingAdds(field);
    NothingRecorded(field);
  }

  // ---------------------------------------------------------------------------------------------
  // Tiers

  /** The metrics reach the thresholds of a tier. */
  predicate Meets(m: EntryMetrics, t: TierGates) {
    m.ret5mBps >= t.ret5mBps && m.buyShare >= t.buyShare && m.depthRatio >= t.depthRatio && m.spreadBps <= t.spreadBps
  }

  /** No threshold of any field is missed. */
  ghost predicate Clean(m: EntryMetrics, profile: EntryProfile) {
    forall field :: Misses(m, profile, field) == 0
  }

  /** A point is eligible iff it misses no threshold and meets the medium or the high tier, and then it is high iff it
      meets the high one. */
  lemma TierIsExact(m: EntryMetrics, profile: EntryProfile)
    ensures var high := if profile.highTier.Some? then profile.highTier.value else TierGates(25.0, 0.60, 1.35, 5.0);
            var medium :=
              if profile.mediumTier.Some? then profile.mediumTier.value else TierGates(10.0, 0.57, 1.25, 7.0);
            && (EvaluateEntry(m, profile).tier == Some(High) <==> Clean(m, profile) && Meets(m, high))
            && (EvaluateEntry(m, profile).tier == Some(Medium)
                <==> Clean(m, profile) && Meets(m, medium) && !Meets(m, high))
  {
    hide Failures, Clean;
    CleanIffNoFailure(m, profile);
    if Failures(m, profile) == [] {
      CleanClearsHurdle(m, profile);
    }
  }

  lemma CleanIffNoFailure(m: EntryMetrics, profile: EntryProfile)
    ensures Clean(m, profile) <==> Failures(m, profile) == []
  {
    hide Failures, Misses, Recorded;
    var failures := Failures(m, profile);
    DecisionFailures(m, profile);
    if failures == [] {
      forall field ensures Misses(m, profile, field) == 0 {
        FailuresAreCounted(m, profile, field);
        NothingRecorded(field);
      }
    } else {
      var field := failures[|failures| - 1].field;
      FailuresAreCounted(m, profile, field);
      LastIsRecorded(failures);
    }
  }

  lemma LastIsRecorded(failures: seq<GateFailure>)
    requires failures != []
    ensures Recorded(failures, failures[|failures| - 1].field) > 0
  {
  }

  lemma CleanClearsHurdle(m: EntryMetrics, profile: EntryProfile)
    requires Failures(m, profile) == []
    ensures m.ret5mBps > RequiredRet5mBps(m, profile)
  {
    assert BookFailures(m, profile) == [];
  }

  /** `better` is at least as good as `m` on every metric the gates look at, at the same turnover. */
  predicate AtLeastAsGood(better: EntryMetrics, m: EntryMetrics) {
    && better.market == m.market
    && better.turnover24h == m.turnover24h
    && better.ret5mBps >= m.ret5mBps
    && better.buyShare >= m.buyShare
    && better.depthRatio >= m.depthRatio
    && better.spreadBps <= m.spreadBps
    && better.coverageSec >= m.coverageSec
    && (m.ret1mBps.Some? ==> better.ret1mBps.Some? && better.ret1mBps.value >= m.ret1mBps.value)
  }

  /** Eligibility is monotone: improving the metrics never loses a tier. The required return itself
      moves with the spread, so this is not gate-by-gate independence. */
  lemma BetterMetricsKeepTier(m: EntryMetrics, better: EntryMetrics, profile: EntryProfile)
    requires AtLeastAsGood(better, m)
    requires EvaluateEntry(m, profile).tier.Some?
    ensures EvaluateEntry(better, profile).tier.Some?
    ensures EvaluateEntry(m, profile).tier == Some(High) ==> EvaluateEntry(better, profile).tier == Some(High)
  {
    assert Failures(m, profile) == [];
    assert RequiredRet5mBps(better, profile) <= RequiredRet5mBps(m, profile);
    assert UniverseFailures(better, profile) == [] && BookFailures(better, profile) == [];
    assert TurnoverFailures(better, profile) == [] && OverlayFailures(better) == [];
  }
}
