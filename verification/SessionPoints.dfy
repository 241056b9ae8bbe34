/** Enriched points, the 15-second downsampling and the grouping into time buckets of
    `org_coin_data/session_scenario.py`. */
module SessionPoints {
  import opened Basics
  import Lexicographic

  datatype Snapshot = Snapshot(
    market: string,
    asOfMs: int,
    lastTrade: Pos,
    bid: Pos,
    ask: Pos,
    bidSize: Pos,
    askSize: Pos,
    spreadBps: real,
    depthRatio: Pos,
    notional24h: real)

  datatype Point = Point(
    market: string,
    ts: int,
    snapshot: Snapshot,
    ret5mBps: real,
    ret1mBps: Option<real>,
    buyShare: real,
    depthRatio: real,
    spreadBps: real,
    turnover24h: real,
    coverageSec: real)

  const DECISION_CADENCE_MS := 15_000

  // ---------------------------------------------------------------------------------------------
  // The order (timestamp, market) in which points are sorted

  predicate CharLess(a: char, b: char) {
    a < b
  }

  predicate StringLess(a: string, b: string) {
    Lexicographic.Less(CharLess, a, b)
  }

  predicate PointLess(a: Point, b: Point) {
    a.ts < b.ts || (a.ts == b.ts && StringLess(a.market, b.market))
  }

  lemma StringLessTotal(a: string, b: string)
    ensures a == b || StringLess(a, b) || StringLess(b, a)
  {
    Lexicographic.Total(CharLess, a, b);
  }

  lemma StringLessTransitive(a: string, b: string, c: string)
    requires StringLess(a, b) && StringLess(b, c)
    ensures StringLess(a, c)
  {
    Lexicographic.Transitive(CharLess, a, b, c);
  }

  lemma StringLessIrreflexive(a: string)
    ensures !StringLess(a, a)
  {
    Lexicographic.Irreflexive(CharLess, a);
  }

  lemma PointLessTransitive(a: Point, b: Point, c: Point)
    requires PointLess(a, b) && PointLess(b, c)
    ensures PointLess(a, c)
  {
    if a.ts == b.ts && b.ts == c.ts {
      StringLessTransitive(a.market, b.market, c.market);
    }
  }

  ghost predicate StrictlySorted(s: seq<Point>) {
    forall i, j :: 0 <= i < j < |s| ==> PointLess(s[i], s[j])
  }

  /** Non-strict order: several captures may share market and timestamp. */
  ghost predicate Sorted(s: seq<Point>) {
    forall i, j :: 0 <= i < j < |s| ==> !PointLess(s[j], s[i])
  }

  lemma HeadsAgree(s: seq<Point>, t: seq<Point>)
    requires StrictlySorted(s) && StrictlySorted(t) && s != [] && t != []
    requires forall p :: p in s <==> p in t
    ensures s[0] == t[0]
  {
    if s[0] != t[0] {
      assert s[0] in t && t[0] in s;
      var i :| 0 <= i < |t| && t[i] == s[0];
      var j :| 0 <= j < |s| && s[j] == t[0];
      PointLessTransitive(s[0], t[0], s[0]);
      StringLessIrreflexive(s[0].market);
    }
  }

  lemma HeadIsMember(s: seq<Point>)
    requires s != []
    ensures s[0] in s
  {
  }

  lemma TailMember(s: seq<Point>, t: seq<Point>, p: Point)
    requires StrictlySorted(s) && s != [] && t != [] && s[0] == t[0]
    requires forall q :: q in s ==> q in t
    ensures p in s[1..] ==> p in t[1..]
  {
    if p in s[1..] {
      var i :| 0 <= i < |s[1..]| && s[1..][i] == p;
      assert s[i + 1] == p && PointLess(s[0], p);
      StringLessIrreflexive(p.market);
      assert p in s && p != t[0];
      assert t == [t[0]] + t[1..];
    }
  }

  /** A set of points has at most one strictly sorted listing. */
  lemma {:induction false} SortedListingUnique(s: seq<Point>, t: seq<Point>)
    requires StrictlySorted(s) && StrictlySorted(t)
    requires forall p :: p in s <==> p in t
    ensures s == t
  {
    if s == [] {
      if t != [] {
        HeadIsMember(t);
        assert false;
      }
    } else if t == [] {
      HeadIsMember(s);
      assert false;
    } else {
      HeadsAgree(s, t);
      StringLessIrreflexive(s[0].market);
      forall p ensures p in s[1..] ==> p in t[1..] {
        TailMember(s, t, p);
      }
      forall p ensures p in t[1..] ==> p in s[1..] {
        TailMember(t, s, p);
      }
      SortedListingUnique(s[1..], t[1..]);
      assert s == [s[0]] + s[1..] && t == [t[0]] + t[1..];
    }
  }

  // ---------------------------------------------------------------------------------------------
  // Downsampling: the last point of each (market, 15-second bucket)

  function Key(p: Point): (string, int) {
    (p.market, p.ts / DECISION_CADENCE_MS)
  }

  predicate HasKey(points: seq<Point>, key: (string, int)) {
    exists p :: p in points && Key(p) == key
  }

  /** Keeps a point when no later point falls in the same bucket of the same market. */
  function Downsample(points: seq<Point>): seq<Point> {
    if points == [] then []
    else
      (if HasKey(points[1..], Key(points[0])) then [] else [points[0]]) + Downsample(points[1..])
  }

  lemma {:induction false} DownsampleMembers(points: seq<Point>)
    ensures forall p :: p in Downsample(points) ==> p in points
    ensures forall p :: p in points ==> HasKey(Downsample(points), Key(p))
    ensures forall p, q :: p in Downsample(points) && q in Downsample(points) && Key(p) == Key(q) ==> p == q
  {
    if points != [] {
      var rest := points[1..];
      DownsampleMembers(rest);
      assert points == [points[0]] + rest;
      forall p | p in points ensures HasKey(Downsample(points), Key(p)) {
        if HasKey(rest, Key(p)) {
          var q :| q in rest && Key(q) == Key(p);
          assert HasKey(Downsample(rest), Key(q));
          var r :| r in Downsample(rest) && Key(r) == Key(q);
          assert r in Downsample(points);
        } else {
          assert p == points[0];
          assert p in Downsample(points);
        }
      }
      forall p | p in Downsample(rest) && !HasKey(rest, Key(points[0])) ensures Key(p) != Key(points[0]) {
        assert p in rest;
      }
    }
  }

  /** Two points of one market in the same 15 seconds, counted from time 0. */
  predicate SameWindow(p: Point, q: Point) {
    p.market == q.market && p.ts / 15_000 == q.ts / 15_000
  }

  lemma SharedKeys(p: Point, q: Point)
    ensures Key(p) == Key(q) <==> SameWindow(p, q)
  {
  }

  lemma FirstIsEarliest(points: seq<Point>, q: Point)
    requires Sorted(points) && points != [] && q in points
    ensures points[0].ts <= q.ts
  {
    var i :| 0 <= i < |points| && points[i] == q;
    if i > 0 {
      assert !PointLess(points[i], points[0]);
    }
  }

  lemma {:induction false} SurvivorIsLatest(points: seq<Point>, p: Point, q: Point)
    requires Sorted(points) && p in points && q in Downsample(points) && Key(p) == Key(q)
    ensures p.ts <= q.ts
  {
    hide Key, Sorted, PointLess;
    var first, rest := points[0], points[1..];
    DownsampleMembers(points);
    FirstIsEarliest(points, q);
    if p != first {
      assert points == [first] + rest;
      assert HasKey(rest, Key(p));
      TailIsSorted(points);
      SurvivorIsLatest(rest, p, q);
    }
  }

  lemma TailIsSorted(points: seq<Point>)
    requires Sorted(points) && points != []
    ensures Sorted(points[1..])
  {
  }

  /** Exactly one point per market and 15 seconds survives, and of sorted input it is the latest. */
  lemma DownsampleKeepsLatest(points: seq<Point>)
    requires Sorted(points)
    ensures forall p, q :: p in points && q in Downsample(points) && SameWindow(p, q) ==> p.ts <= q.ts
    ensures forall p, q :: p in Downsample(points) && q in Downsample(points) && SameWindow(p, q) ==> p == q
    ensures forall p :: p in points ==> exists q :: q in Downsample(points) && SameWindow(p, q)
  {
    hide Key, Downsample, SameWindow;
    DownsampleMembers(points);
    forall p, q | p in points && q in Downsample(points) && SameWindow(p, q) ensures p.ts <= q.ts {
      SharedKeys(p, q);
      SurvivorIsLatest(points, p, q);
    }
    forall p, q | p in Downsample(points) && q in Downsample(points) && SameWindow(p, q) ensures p == q {
      SharedKeys(p, q);
    }
    forall p | p in points ensures exists q :: q in Downsample(points) && SameWindow(p, q) {
      assert HasKey(Downsample(points), Key(p));
      var q :| q in Downsample(points) && Key(q) == Key(p);
      SharedKeys(p, q);
    }
  }

  /** Of sorted input, one point per market and instant at most survives, in strict order. */
  lemma {:induction false} DownsampleSorted(points: seq<Point>)
    requires Sorted(points)
    ensures StrictlySorted(Downsample(points))
  {
    if points != [] {
      var first, rest := points[0], points[1..];
      DownsampleSorted(rest);
      DownsampleMembers(rest);
      if !HasKey(rest, Key(first)) {
        forall q | q in Downsample(rest) ensures PointLess(first, q) {
          assert q in rest;
          var i :| 0 <= i < |rest| && rest[i] == q;
          assert points[i + 1] == q;
          assert !PointLess(q, first);
          StringLessTotal(first.market, q.market);
          assert Key(q) != Key(first);
        }
      }
    }
  }

  /** Cutting the input where no (market, bucket) key is shared commutes with downsampling. */
  lemma {:induction false} DownsampleConcat(a: seq<Point>, b: seq<Point>)
    requires forall p, q :: p in a && q in b ==> Key(p) != Key(q)
    ensures Downsample(a + b) == Downsample(a) + Downsample(b)
  {
    if a == [] {
      assert a + b == b;
    } else {
      assert (a + b)[0] == a[0] && (a + b)[1..] == a[1..] + b;
      DownsampleConcat(a[1..], b);
      assert HasKey(a[1..] + b, Key(a[0])) <==> HasKey(a[1..], Key(a[0])) by {
        if HasKey(a[1..] + b, Key(a[0])) {
          var p :| p in a[1..] + b && Key(p) == Key(a[0]);
          assert p in a[1..];
        }
        if HasKey(a[1..], Key(a[0])) {
          var p :| p in a[1..] && Key(p) == Key(a[0]);
          assert p in a[1..] + b;
        }
      }
      assert Downsample(a + b) == Downsample(a) + Downsample(b);
    }
  }

  /** A cut inside a bucket does not commute: the uncut run drops the earlier of the two points. */
  lemma StraddlingCutDiffers(a: seq<Point>, b: seq<Point>, p: Point, q: Point)
    requires p in a && q in b && Key(p) == Key(q)
    requires forall x, y :: x in a && y in b ==> x.ts < y.ts
    ensures Downsample(a + b) != Downsample(a) + Downsample(b)
  {
    DownsampleMembers(a);
    DownsampleMembers(b);
    DownsampleMembers(a + b);
    assert HasKey(Downsample(a), Key(p)) && HasKey(Downsample(b), Key(p));
    var x :| x in Downsample(a) && Key(x) == Key(p);
    var y :| y in Downsample(b) && Key(y) == Key(p);
    assert x.ts < y.ts;
    assert x in Downsample(a) + Downsample(b) && y in Downsample(a) + Downsample(b);
  }

  method InsertSorted(s: seq<Point>, p: Point) returns (r: seq<Point>)
    requires StrictlySorted(s)
    requires forall q :: q in s ==> PointLess(p, q) || PointLess(q, p)
    ensures StrictlySorted(r)
    ensures forall q :: q in r <==> q in s || q == p
  {
    var i := 0;
    while i < |s| && PointLess(s[i], p)
      invariant 0 <= i <= |s|
      invariant forall j :: 0 <= j < i ==> PointLess(s[j], p)
    {
      i := i + 1;
    }
    forall j | i <= j < |s| ensures PointLess(p, s[j]) {
      if i < j {
        PointLessTransitive(p, s[i], s[j]);
      }
    }
    r := s[..i] + [p] + s[i..];
    assert forall q :: q in s <==> q in s[..i] || q in s[i..] by {
      assert s == s[..i] + s[i..];
    }
  }

  lemma HasKeySnoc(points: seq<Point>, p: Point, k: (string, int))
    ensures HasKey(points + [p], k) <==> HasKey(points, k) || k == Key(p)
  {
    if HasKey(points, k) {
      var q :| q in points && Key(q) == k;
      assert q in points + [p];
    }
    assert p in points + [p];
  }

  /** `latest` is the dictionary the source builds from `points`. */
  ghost predicate IsLatest(latest: map<(string, int), Point>, points: seq<Point>) {
    && (forall k :: k in latest ==> Key(latest[k]) == k && latest[k] in Downsample(points))
    && (forall q :: q in Downsample(points) ==> Key(q) in latest && latest[Key(q)] == q)
  }

  /** The dictionary keyed by (market, bucket), overwritten by later points. */
  method LatestByMarketBucket(points: seq<Point>) returns (latest: map<(string, int), Point>)
    ensures IsLatest(latest, points)
  {
    latest := map[];
    for i := 0 to |points|
      invariant IsLatest(latest, points[..i])
    {
      DownsampleSnoc(points[..i], points[i]);
      DownsampleMembers(points[..i]);
      assert points[..i + 1] == points[..i] + [points[i]];
      latest := latest[Key(points[i]) := points[i]];
    }
    assert points[..|points|] == points;
  }

  /** The source's algorithm: the values of the dictionary, in whatever order, sorted. */
  method DownsamplePoints(points: seq<Point>) returns (r: seq<Point>)
    requires Sorted(points)
    ensures r == Downsample(points)
  {
    var latest := LatestByMarketBucket(points);
    r := [];
    var keys := latest.Keys;
    while keys != {}
      invariant keys <= latest.Keys
      invariant StrictlySorted(r)
      invariant forall q :: q in r ==> q in Downsample(points) && Key(q) !in keys
      invariant forall k :: k in latest && k !in keys ==> latest[k] in r
      decreases keys
    {
      var k :| k in keys;
      var p := latest[k];
      forall q | q in r ensures PointLess(p, q) || PointLess(q, p) {
        assert Key(q) != Key(p);
        StringLessTotal(p.market, q.market);
      }
      r := InsertSorted(r, p);
      keys := keys - {k};
    }
    DownsampleSorted(points);
    SortedListingUnique(r, Downsample(points));
  }

  /** Appending a point replaces the kept point of its key, if there was one. */
  lemma {:induction false} DownsampleSnoc(points: seq<Point>, p: Point)
    ensures forall q :: q in Downsample(points + [p]) <==> q == p || (q in Downsample(points) && Key(q) != Key(p))
  {
    if points == [] {
      assert points + [p] == [p];
      assert Downsample([p]) == [p] + Downsample([]);
    } else {
      var first, rest := points[0], points[1..];
      assert (points + [p])[0] == first && (points + [p])[1..] == rest + [p];
      DownsampleSnoc(rest, p);
      DownsampleMembers(points);
      HasKeySnoc(rest, p, Key(first));
    }
  }

  // ---------------------------------------------------------------------------------------------
  // Buckets of simultaneous points

  type Bucket = seq<Point>

  /** Adds a point to the last bucket if it is simultaneous with it, else opens a new one. */
  function AddPoint(before: seq<Bucket>, p: Point): seq<Bucket> {
    var k := |before| - 1;
    if before != [] && before[k] != [] && before[k][0].ts == p.ts then before[..k] + [before[k] + [p]]
    else before + [[p]]
  }

  /** Groups consecutive points with the same timestamp. */
  function Buckets(points: seq<Point>): seq<Bucket> {
    if points == [] then [] else AddPoint(Buckets(points[..|points| - 1]), points[|points| - 1])
  }

  ghost predicate ValidBucket(b: Bucket) {
    && b != []
    && (forall q :: q in b ==> q.ts == b[0].ts)
    && (forall i, j :: 0 <= i < j < |b| ==> b[i].market != b[j].market)
  }

  /** Buckets are non-empty, hold one point per market, and come in strictly increasing time. */
  ghost predicate ValidBuckets(bs: seq<Bucket>) {
    && (forall i :: 0 <= i < |bs| ==> ValidBucket(bs[i]))
    && (forall i, j :: 0 <= i < j < |bs| ==> bs[i][0].ts < bs[j][0].ts)
  }

  function Flatten(bs: seq<Bucket>): seq<Point> {
    if bs == [] then [] else Flatten(bs[..|bs| - 1]) + bs[|bs| - 1]
  }

  ghost predicate AllBelow(b: Bucket, p: Point) {
    forall q :: q in b ==> PointLess(q, p)
  }

  lemma AddPointKeepsValid(before: seq<Bucket>, p: Point)
    requires ValidBuckets(before)
    requires before != [] ==> AllBelow(before[|before| - 1], p)
    ensures ValidBuckets(AddPoint(before, p))
  {
    if before != [] {
      var k := |before| - 1;
      var last := before[k];
      assert ValidBucket(last);
      assert last[0] in last && PointLess(last[0], p);
      if last[0].ts == p.ts {
        forall i | 0 <= i < |last| ensures last[i].market != p.market {
          assert last[i] in last && PointLess(last[i], p);
          StringLessIrreflexive(p.market);
        }
        assert ValidBucket(last + [p]);
      } else {
        assert ValidBucket([p]);
      }
    } else {
      assert ValidBucket([p]);
    }
  }

  lemma AddPointNonEmpty(before: seq<Bucket>, p: Point)
    ensures AddPoint(before, p) != []
  {
  }

  lemma FlattenAddPoint(before: seq<Bucket>, p: Point)
    ensures Flatten(AddPoint(before, p)) == Flatten(before) + [p]
  {
    var k := |before| - 1;
    var after := AddPoint(before, p);
    if before != [] && before[k] != [] && before[k][0].ts == p.ts {
      assert after[..k] == before[..k];
    } else {
      assert after[..k + 1] == before;
    }
  }

  lemma BelowLast(points: seq<Point>, before: seq<Bucket>)
    requires StrictlySorted(points) && points != []
    requires Flatten(before) == points[..|points| - 1]
    ensures before != [] ==> AllBelow(before[|before| - 1], points[|points| - 1])
  {
    var n := |points| - 1;
    if before != [] {
      FlattenMember(before, |before| - 1);
      forall q | q in before[|before| - 1] ensures PointLess(q, points[n]) {
        assert q in points[..n];
        var i :| 0 <= i < n && points[..n][i] == q;
        assert PointLess(points[i], points[n]);
      }
    }
  }

  /** Grouping loses nothing and yields valid buckets. */
  lemma {:induction false} BucketsPartition(points: seq<Point>)
    requires StrictlySorted(points)
    ensures ValidBuckets(Buckets(points))
    ensures Flatten(Buckets(points)) == points
    ensures points != [] ==> Buckets(points) != []
  {
    hide AddPoint, AllBelow, ValidBucket, PointLess;
    if points != [] {
      var n := |points| - 1;
      var p, init := points[n], points[..n];
      var before := Buckets(init);
      assert StrictlySorted(init);
      BucketsPartition(init);
      BelowLast(points, before);
      AddPointKeepsValid(before, p);
      FlattenAddPoint(before, p);
      AddPointNonEmpty(before, p);
      assert Buckets(points) == AddPoint(before, p);
      assert points == init + [p];
    }
  }

  lemma AddPointAfter(left: seq<Bucket>, right: seq<Bucket>, p: Point)
    requires right != [] || left == [] || left[|left| - 1] == [] || left[|left| - 1][0].ts != p.ts
    ensures AddPoint(left + right, p) == left + AddPoint(right, p)
  {
    if right != [] {
      var all := left + right;
      assert all[|all| - 1] == right[|right| - 1];
      assert all[..|all| - 1] == left + right[..|right| - 1];
    } else {
      assert left + right == left;
    }
  }

  /** A cut between two instants is a cut between two buckets. */
  lemma {:induction false} BucketsConcat(a: seq<Point>, b: seq<Point>)
    requires StrictlySorted(a)
    requires forall p, q :: p in a && q in b ==> p.ts < q.ts
    ensures Buckets(a + b) == Buckets(a) + Buckets(b)
  {
    if b == [] {
      assert a + b == a;
    } else {
      var n := |b| - 1;
      assert (a + b)[..|a + b| - 1] == a + b[..n] && (a + b)[|a + b| - 1] == b[n];
      BucketsConcat(a, b[..n]);
      BucketsPartition(a);
      var left := Buckets(a);
      if left != [] && left[|left| - 1] != [] {
        FlattenMember(left, |left| - 1);
        assert left[|left| - 1][0] in a;
      }
      BucketsOfNonEmpty(b[..n]);
      AddPointAfter(left, Buckets(b[..n]), b[n]);
    }
  }

  lemma BucketsOfNonEmpty(points: seq<Point>)
    ensures points != [] ==> Buckets(points) != []
  {
  }

  lemma {:induction false} FlattenMember(bs: seq<Bucket>, i: nat)
    requires i < |bs|
    ensures forall p :: p in bs[i] ==> p in Flatten(bs)
  {
    if i < |bs| - 1 {
      FlattenMember(bs[..|bs| - 1], i);
    }
  }

  // ---------------------------------------------------------------------------------------------
  // The same buckets by dictionary: points by timestamp, the timestamps sorted

  function PointsAt(points: seq<Point>, ts: int): seq<Point> {
    if points == [] then []
    else
      var n := |points| - 1;
      PointsAt(points[..n], ts) + (if points[n].ts == ts then [points[n]] else [])
  }

  lemma {:induction false} PointsAtMembers(points: seq<Point>, ts: int)
    ensures forall p :: p in PointsAt(points, ts) <==> p in points && p.ts == ts
  {
    if points != [] {
      var n := |points| - 1;
      PointsAtMembers(points[..n], ts);
      assert points == points[..n] + [points[n]];
    }
  }

  lemma {:induction false} PointsAtSorted(points: seq<Point>, ts: int)
    requires StrictlySorted(points)
    ensures StrictlySorted(PointsAt(points, ts))
  {
    if points != [] {
      var n := |points| - 1;
      PointsAtSorted(points[..n], ts);
      PointsAtMembers(points[..n], ts);
      forall q | q in PointsAt(points[..n], ts) ensures PointLess(q, points[n]) {
        assert q in points[..n];
      }
    }
  }

  ghost predicate Ascending(times: seq<int>) {
    forall i, j :: 0 <= i < j < |times| ==> times[i] < times[j]
  }

  lemma HeadOfEither(s: seq<int>, t: seq<int>)
    requires forall x :: x in s ==> x in t
    ensures s != [] ==> s[0] in s && s[0] in t
  {
    if s != [] {
      var head := s[0];
      assert head in s;
      assert head in t;
    }
  }

  /** An ascending listing of a set of times is unique. */
  lemma {:induction false} AscendingUnique(s: seq<int>, t: seq<int>)
    requires Ascending(s) && Ascending(t) && forall x :: x in s <==> x in t
    ensures s == t
  {
    HeadOfEither(s, t);
    HeadOfEither(t, s);
    if s != [] && t != [] {
      assert s[0] in t && t[0] in s;
      assert s[0] == t[0];
      assert s == [s[0]] + s[1..] && t == [t[0]] + t[1..];
      forall x ensures x in s[1..] <==> x in t[1..] {
        assert x in s[1..] <==> x in s && x != s[0];
        assert x in t[1..] <==> x in t && x != t[0];
      }
      AscendingUnique(s[1..], t[1..]);
    }
  }

  function TimesOf(bs: seq<Bucket>): seq<int>
    requires forall i :: 0 <= i < |bs| ==> bs[i] != []
  {
    seq(|bs|, i requires 0 <= i < |bs| => bs[i][0].ts)
  }

  /** The buckets are the points at their times. */
  ghost predicate AreGroups(bs: seq<Bucket>, points: seq<Point>) {
    forall i :: 0 <= i < |bs| ==> bs[i] != [] && bs[i] == PointsAt(points, bs[i][0].ts)
  }

  lemma {:induction false} FlattenCovers(bs: seq<Bucket>, p: Point) returns (i: nat)
    requires p in Flatten(bs)
    ensures i < |bs| && p in bs[i]
  {
    var n := |bs| - 1;
    if p in bs[n] {
      i := n;
    } else {
      i := FlattenCovers(bs[..n], p);
    }
  }

  lemma TimeOfBucket(bs: seq<Bucket>, i: nat)
    requires i < |bs| && forall k :: 0 <= k < |bs| ==> bs[k] != []
    ensures bs[i][0].ts in TimesOf(bs)
  {
    var t := TimesOf(bs)[i];
    assert t in TimesOf(bs);
  }

  lemma BucketOfTime(bs: seq<Bucket>, t: int) returns (i: nat)
    requires (forall k :: 0 <= k < |bs| ==> bs[k] != []) && t in TimesOf(bs)
    ensures i < |bs| && bs[i][0].ts == t && bs[i][0] in bs[i]
  {
    i :| 0 <= i < |bs| && TimesOf(bs)[i] == t;
  }

  lemma BucketsNonEmpty(bs: seq<Bucket>)
    requires ValidBuckets(bs)
    ensures forall k :: 0 <= k < |bs| ==> bs[k] != []
  {
  }

  /** Every point's time is the time of some bucket. */
  lemma TimesCover(bs: seq<Bucket>, t: int)
    requires ValidBuckets(bs) && forall k :: 0 <= k < |bs| ==> bs[k] != []
    ensures t in TimesOf(bs) <==> PointsAt(Flatten(bs), t) != []
  {
    hide TimesOf, PointsAt, Flatten, ValidBuckets;
    var points := Flatten(bs);
    PointsAtMembers(points, t);
    if t in TimesOf(bs) {
      var i := BucketOfTime(bs, t);
      FlattenMember(bs, i);
      assert bs[i][0] in PointsAt(points, t);
    }
    if PointsAt(points, t) != [] {
      var p := PointsAt(points, t)[0];
      assert p in PointsAt(points, t);
      var i := FlattenCovers(bs, p);
      BucketTime(bs, i, p);
      TimeOfBucket(bs, i);
    }
  }

  lemma BucketTime(bs: seq<Bucket>, i: nat, p: Point)
    requires ValidBuckets(bs) && i < |bs| && p in bs[i]
    ensures bs[i] != [] && bs[i][0].ts == p.ts
  {
    assert ValidBucket(bs[i]);
  }

  lemma {:induction false} BucketsAreGroups(points: seq<Point>)
    requires StrictlySorted(points)
    ensures AreGroups(Buckets(points), points)
  {
    hide PointsAt;
    BucketsPartition(points);
    forall i | 0 <= i < |Buckets(points)|
      ensures Buckets(points)[i] != [] && Buckets(points)[i] == PointsAt(points, Buckets(points)[i][0].ts)
    {
      BucketIsGroup(points, i);
    }
  }

  lemma BucketIsGroup(points: seq<Point>, i: nat)
    requires StrictlySorted(points) && ValidBuckets(Buckets(points)) && Flatten(Buckets(points)) == points
    requires i < |Buckets(points)|
    ensures Buckets(points)[i] != [] && Buckets(points)[i] == PointsAt(points, Buckets(points)[i][0].ts)
  {
    var bs: seq<seq<Point>> := Buckets(points);
    hide Buckets, Flatten, PointsAt, StrictlySorted;
    assert ValidBucket(bs[i]);
    var t := bs[i][0].ts;
    PointsAtSorted(points, t);
    SliceSorted(bs, i);
    forall p ensures p in bs[i] <==> p in PointsAt(points, t) {
      MemberAtTime(bs, i, p);
      PointsAtMembers(points, t);
    }
    SortedListingUnique(bs[i], PointsAt(points, t));
  }

  /** A point is in a bucket exactly if it has the bucket's time. */
  lemma MemberAtTime(bs: seq<Bucket>, i: nat, p: Point)
    requires ValidBuckets(bs) && i < |bs| && ValidBucket(bs[i])
    ensures p in bs[i] <==> p in Flatten(bs) && p.ts == bs[i][0].ts
  {
    hide Flatten;
    FlattenMember(bs, i);
    if p in Flatten(bs) {
      var j := FlattenCovers(bs, p);
      assert ValidBucket(bs[j]);
    }
  }

  /** Each bucket of a sorted flattening is sorted. */
  lemma {:induction false} SliceSorted(bs: seq<Bucket>, i: nat)
    requires i < |bs| && StrictlySorted(Flatten(bs))
    ensures StrictlySorted(bs[i])
  {
    var n := |bs| - 1;
    var init := Flatten(bs[..n]);
    var all := Flatten(bs);
    if i == n {
      forall j, k | 0 <= j < k < |bs[n]| ensures PointLess(bs[n][j], bs[n][k]) {
        assert all[|init| + j] == bs[n][j] && all[|init| + k] == bs[n][k];
      }
    } else {
      forall j, k | 0 <= j < k < |init| ensures PointLess(init[j], init[k]) {
        assert all[j] == init[j] && all[k] == init[k];
      }
      SliceSorted(bs[..n], i);
    }
  }

  /** So any listing of the groups by ascending time is the buckets. */
  lemma GroupsAreBuckets(points: seq<Point>, times: seq<int>, bs: seq<Bucket>)
    requires StrictlySorted(points) && Ascending(times) && |bs| == |times|
    requires forall t :: t in times <==> PointsAt(points, t) != []
    requires forall i :: 0 <= i < |bs| ==> bs[i] == PointsAt(points, times[i])
    ensures bs == Buckets(points)
  {
    hide PointsAt, Buckets, StrictlySorted, ValidBuckets, Flatten, TimesOf, Ascending;
    BucketsPartition(points);
    BucketsAreGroups(points);
    var whole := Buckets(points);
    BucketsNonEmpty(whole);
    TimesAscend(whole);
    forall t ensures t in times <==> t in TimesOf(whole) {
      TimesCover(whole, t);
    }
    AscendingUnique(times, TimesOf(whole));
    SameGroups(points, bs, whole);
  }

  lemma TimesAscend(bs: seq<Bucket>)
    requires ValidBuckets(bs) && forall k :: 0 <= k < |bs| ==> bs[k] != []
    ensures Ascending(TimesOf(bs))
  {
  }

  lemma SameGroups(points: seq<Point>, bs: seq<Bucket>, whole: seq<Bucket>)
    requires AreGroups(whole, points) && |bs| == |TimesOf(whole)|
    requires forall i :: 0 <= i < |bs| ==> bs[i] == PointsAt(points, TimesOf(whole)[i])
    ensures bs == whole
  {
    hide PointsAt;
  }
}
