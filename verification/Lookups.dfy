/** Binary searches, minute bars and nearest records, each proved equal to a plain scan. */
module Lookups {
  import opened Basics

  // ---------------------------------------------------------------------------------------------
  // Binary search

  ghost predicate SortedBy<T>(items: seq<T>, at: T -> int) {
    forall i, j :: 0 <= i < j < |items| ==> at(items[i]) <= at(items[j])
  }

  /** The scan: how many leading items come before `t`. */
  function FirstAtOrAfter<T>(items: seq<T>, at: T -> int, t: int): (r: nat)
    ensures r <= |items|
  {
    if items == [] || at(items[0]) >= t then 0 else 1 + FirstAtOrAfter(items[1..], at, t)
  }

  /** The scan result is the one index that separates the items before `t` from the first one not before it. */
  lemma {:induction false} FirstSeparates<T>(items: seq<T>, at: T -> int, t: int, i: nat)
    requires i <= |items|
    ensures FirstAtOrAfter(items, at, t) == i
       <==> (forall j :: 0 <= j < i ==> at(items[j]) < t) && (i < |items| ==> at(items[i]) >= t)
  {
    if items != [] && at(items[0]) < t {
      if i > 0 {
        FirstSeparates(items[1..], at, t, i - 1);
        assert forall j :: 1 <= j < i ==> items[j] == items[1..][j - 1];
        assert i < |items| ==> items[i] == items[1..][i - 1];
        if forall j :: 0 <= j < i ==> at(items[j]) < t {
          forall j | 0 <= j < i - 1 ensures at(items[1..][j]) < t {
            assert items[1..][j] == items[j + 1];
          }
        }
      }
    }
  }

  /** `lowerBoundByTimestamp`, `lowerBoundBook` and Python's `bisect_left`. */
  method LowerBound<T>(items: seq<T>, at: T -> int, t: int) returns (low: nat)
    requires SortedBy(items, at)
    ensures low == FirstAtOrAfter(items, at, t)
  {
    low := 0;
    var high := |items|;
    while low < high
      invariant 0 <= low <= high <= |items|
      invariant forall j :: 0 <= j < low ==> at(items[j]) < t
      invariant forall j :: high <= j < |items| ==> at(items[j]) >= t
    {
      var mid := (low + high) / 2;
      if at(items[mid]) < t {
        low := mid + 1;
      } else {
        high := mid;
      }
    }
    FirstSeparates(items, at, t, low);
  }

  /** Python's `bisect_right`: on integers, the first item at or after `t + 1`. */
  method BisectRight<T>(items: seq<T>, at: T -> int, t: int) returns (low: nat)
    requires SortedBy(items, at)
    ensures low == FirstAtOrAfter(items, at, t + 1)
  {
    low := LowerBound(items, at, t + 1);
  }

  /** The last item at or before `t`, by a scan from the end. */
  function LastAtOrBefore<T>(items: seq<T>, at: T -> int, t: int): (r: Option<nat>)
    ensures r.Some? ==> r.value < |items| && at(items[r.value]) <= t
  {
    if items == [] then None
    else if at(items[|items| - 1]) <= t then Some(|items| - 1)
    else LastAtOrBefore(items[..|items| - 1], at, t)
  }

  /** Whatever index separates the items at or before `t` from those after it names the scan's result. */
  lemma {:induction false} LastSeparates<T>(items: seq<T>, at: T -> int, t: int, n: nat)
    requires n <= |items|
    requires n > 0 ==> at(items[n - 1]) <= t
    requires forall j :: n <= j < |items| ==> at(items[j]) > t
    ensures LastAtOrBefore(items, at, t) == if n == 0 then None else Some(n - 1)
  {
    if n < |items| {
      LastSeparates(items[..|items| - 1], at, t, n);
    }
  }

  /** The bisect idiom `bisect_right(...) - 1` finds the last item at or before `t`. */
  lemma BisectFindsLast<T>(items: seq<T>, at: T -> int, t: int)
    requires SortedBy(items, at)
    ensures var n := FirstAtOrAfter(items, at, t + 1);
            LastAtOrBefore(items, at, t) == if n == 0 then None else Some(n - 1)
  {
    var n := FirstAtOrAfter(items, at, t + 1);
    FirstSeparates(items, at, t + 1, n);
    LastSeparates(items, at, t, n);
  }

  // ---------------------------------------------------------------------------------------------
  // Minute bars and reference prices

  datatype Tick = Tick(ts: int, price: real)

  datatype Bar = Bar(minuteTs: int, close: real)

  const MINUTE_MS := 60_000

  function MinuteOf(ts: int): int {
    ts / MINUTE_MS * MINUTE_MS
  }

  function TickTs(t: Tick): int { t.ts }

  function TickMinute(t: Tick): int { MinuteOf(t.ts) }

  function BarTs(b: Bar): int { b.minuteTs }

  /** Adds one trade: it overwrites the close of the last bar if it falls into the same minute. */
  function AddTick(bars: seq<Bar>, t: Tick): seq<Bar> {
    var n := |bars| - 1;
    if bars != [] && bars[n].minuteTs == TickMinute(t) then bars[..n] + [bars[n].(close := t.price)]
    else bars + [Bar(TickMinute(t), t.price)]
  }

  function Bars(trades: seq<Tick>): seq<Bar> {
    if trades == [] then [] else AddTick(Bars(trades[..|trades| - 1]), trades[|trades| - 1])
  }

  /** `_build_minute_bars`: two parallel lists, appended to and overwritten at their tails. */
  method BuildMinuteBars(trades: seq<Tick>) returns (timestamps: seq<int>, closes: seq<real>)
    ensures |timestamps| == |closes| == |Bars(trades)|
    ensures forall i :: 0 <= i < |timestamps| ==> Bars(trades)[i] == Bar(timestamps[i], closes[i])
  {
    timestamps, closes := [], [];
    for i := 0 to |trades|
      invariant |timestamps| == |closes| == |Bars(trades[..i])|
      invariant forall j :: 0 <= j < |timestamps| ==> Bars(trades[..i])[j] == Bar(timestamps[j], closes[j])
    {
      assert trades[..i + 1][..i] == trades[..i];
      var minute := MinuteOf(trades[i].ts);
      if timestamps != [] && timestamps[|timestamps| - 1] == minute {
        closes := closes[|closes| - 1 := trades[i].price];
      } else {
        timestamps, closes := timestamps + [minute], closes + [trades[i].price];
      }
    }
    assert trades[..|trades|] == trades;
  }

  function PriceAt(trades: seq<Tick>, i: Option<nat>): Option<real>
    requires i.Some? ==> i.value < |trades|
  {
    if i.None? then None else Some(trades[i.value].price)
  }

  function CloseAt(bars: seq<Bar>, i: Option<nat>): Option<real>
    requires i.Some? ==> i.value < |bars|
  {
    if i.None? then None else Some(bars[i.value].close)
  }

  /** `_reference_price`: the close of the last bar at or before the cutoff. */
  function ReferencePrice(bars: seq<Bar>, anchor: int, offset: int): Option<real> {
    var n := FirstAtOrAfter(bars, BarTs, anchor - offset + 1);
    if n == 0 then None else Some(bars[n - 1].close)
  }

  method LookUpReference(bars: seq<Bar>, anchor: int, offset: int) returns (price: Option<real>)
    requires SortedBy(bars, BarTs)
    ensures price == ReferencePrice(bars, anchor, offset)
  {
    var n := BisectRight(bars, BarTs, anchor - offset);
    price := if n == 0 then None else Some(bars[n - 1].close);
  }

  lemma {:induction false} BarsAreSorted(trades: seq<Tick>)
    requires SortedBy(trades, TickTs)
    ensures SortedBy(Bars(trades), BarTs)
    ensures trades != [] ==> Bars(trades) != []
    ensures trades != [] ==> Bars(trades)[|Bars(trades)| - 1].minuteTs == TickMinute(trades[|trades| - 1])
    ensures trades != [] ==> Bars(trades)[|Bars(trades)| - 1].close == trades[|trades| - 1].price
  {
    hide MinuteOf, AddTick;
    if trades != [] {
      var n := |trades| - 1;
      BarsAreSorted(trades[..n]);
      if n > 0 {
        assert trades[..n][n - 1] == trades[n - 1];
        MinutesIncrease(trades[n - 1].ts, trades[n].ts);
      }
      AddTickSorted(Bars(trades[..n]), trades[n]);
    }
  }

  /** Trade `i` is the last one of the minute that starts at `m`. */
  ghost predicate IsLastOfMinute(trades: seq<Tick>, m: int, i: nat) {
    && i < |trades| && m % 60_000 == 0 && m <= trades[i].ts < m + 60_000
    && forall j :: i < j < |trades| ==> trades[j].ts >= m + 60_000
  }

  /** The bar closes at the price of the last trade of its minute. */
  ghost predicate ClosesLast(trades: seq<Tick>, b: Bar) {
    exists i: nat :: i < |trades| && IsLastOfMinute(trades, b.minuteTs, i) && b.close == trades[i].price
  }

  ghost predicate Covers(bars: seq<Bar>, ts: int) {
    exists i :: 0 <= i < |bars| && bars[i].minuteTs <= ts < bars[i].minuteTs + 60_000
  }

  ghost predicate Rising(bars: seq<Bar>) {
    forall i, j :: 0 <= i < j < |bars| ==> bars[i].minuteTs < bars[j].minuteTs
  }

  /** One bar per minute that was traded in, in strict order, closing at the price of the minute's last trade. */
  lemma {:induction false} BarsArePerMinute(trades: seq<Tick>)
    requires SortedBy(trades, TickTs)
    ensures Rising(Bars(trades))
    ensures forall k :: 0 <= k < |Bars(trades)| ==> ClosesLast(trades, Bars(trades)[k])
    ensures forall i :: 0 <= i < |trades| ==> Covers(Bars(trades), trades[i].ts)
  {
    hide MinuteOf, AddTick, Rising, ClosesLast, Covers;
    if trades == [] {
      NothingRises();
    } else {
      var n := |trades| - 1;
      var before, bars := trades[..n], Bars(trades[..n]);
      var after := AddTick(bars, trades[n]);
      BarsArePerMinute(before);
      BarsAreSorted(before);
      LastMinute(trades, bars);
      AddTickRises(bars, trades[n]);
      forall k | 0 <= k < |after| ensures ClosesLast(trades, after[k]) {
        if k == |after| - 1 {
          LastOfItsMinute(trades, after[k]);
        } else {
          EarlierMinuteStays(trades, after[k]);
        }
      }
      forall i | 0 <= i < |trades| ensures Covers(after, trades[i].ts) {
        if i < n {
          assert before[i] == trades[i];
          StaysCovered(bars, trades[n], trades[i].ts);
        } else {
          NowCovered(bars, trades[n]);
        }
      }
    }
  }

  lemma NothingRises()
    ensures Rising([])
  {
  }

  /** The last bar so far is no later than the minute of the next trade. */
  lemma LastMinute(trades: seq<Tick>, bars: seq<Bar>)
    requires trades != [] && SortedBy(trades, TickTs)
    requires |trades| > 1 ==> bars != [] && bars[|bars| - 1].minuteTs == TickMinute(trades[|trades| - 2])
    requires |trades| == 1 ==> bars == []
    ensures bars != [] ==> bars[|bars| - 1].minuteTs <= TickMinute(trades[|trades| - 1])
  {
    hide MinuteOf;
    if |trades| > 1 {
      assert TickTs(trades[|trades| - 2]) <= TickTs(trades[|trades| - 1]);
      MinutesIncrease(trades[|trades| - 2].ts, trades[|trades| - 1].ts);
    }
  }

  lemma AddTickRises(bars: seq<Bar>, t: Tick)
    requires Rising(bars) && (bars != [] ==> bars[|bars| - 1].minuteTs <= TickMinute(t))
    ensures var after := AddTick(bars, t);
            && Rising(after) && after != [] && after[|after| - 1] == Bar(TickMinute(t), t.price)
            && forall k :: 0 <= k < |after| - 1 ==>
                 k < |bars| && after[k] == bars[k] && after[k].minuteTs < TickMinute(t)
  {
    hide MinuteOf;
    var n := |bars| - 1;
    forall k | 0 <= k < n ensures bars[k].minuteTs < bars[n].minuteTs {
    }
  }

  lemma MinuteStarts(ts: int)
    ensures MinuteOf(ts) % 60_000 == 0 && MinuteOf(ts) <= ts < MinuteOf(ts) + 60_000
  {
  }

  /** A bar of an earlier minute keeps its last trade. */
  lemma EarlierMinuteStays(trades: seq<Tick>, b: Bar)
    requires trades != [] && ClosesLast(trades[..|trades| - 1], b) && b.minuteTs < TickMinute(trades[|trades| - 1])
    ensures ClosesLast(trades, b)
  {
    hide MinuteOf;
    var before := trades[..|trades| - 1];
    var i: nat :| i < |before| && IsLastOfMinute(before, b.minuteTs, i) && b.close == before[i].price;
    MinuteStarts(trades[|trades| - 1].ts);
    assert IsLastOfMinute(trades, b.minuteTs, i);
  }

  lemma LastOfItsMinute(trades: seq<Tick>, b: Bar)
    requires trades != [] && b == Bar(TickMinute(trades[|trades| - 1]), trades[|trades| - 1].price)
    ensures ClosesLast(trades, b)
  {
    MinuteStarts(trades[|trades| - 1].ts);
    assert IsLastOfMinute(trades, b.minuteTs, |trades| - 1);
  }

  lemma StaysCovered(bars: seq<Bar>, t: Tick, ts: int)
    requires Covers(bars, ts)
    ensures Covers(AddTick(bars, t), ts)
  {
    hide MinuteOf;
    var i :| 0 <= i < |bars| && bars[i].minuteTs <= ts < bars[i].minuteTs + 60_000;
    assert AddTick(bars, t)[i].minuteTs == bars[i].minuteTs;
  }

  lemma NowCovered(bars: seq<Bar>, t: Tick)
    ensures Covers(AddTick(bars, t), t.ts)
  {
    hide MinuteOf;
    MinuteStarts(t.ts);
    var after := AddTick(bars, t);
    assert after[|after| - 1].minuteTs == MinuteOf(t.ts);
  }

  lemma AddTickSorted(bars: seq<Bar>, t: Tick)
    requires SortedBy(bars, BarTs)
    requires bars != [] ==> bars[|bars| - 1].minuteTs <= TickMinute(t)
    ensures var after := AddTick(bars, t);
            && SortedBy(after, BarTs)
            && after != []
            && after[|after| - 1] == Bar(TickMinute(t), t.price)
  {
    hide MinuteOf;
    var n := |bars| - 1;
    if bars != [] {
      forall j | 0 <= j <= n ensures bars[j].minuteTs <= bars[n].minuteTs {
        if j < n {
          assert BarTs(bars[j]) <= BarTs(bars[n]);
        }
      }
    }
  }

  lemma MinutesIncrease(a: int, b: int)
    requires a <= b
    ensures MinuteOf(a) <= MinuteOf(b)
    ensures MinuteOf(a) <= a < MinuteOf(a) + 60_000
  {
  }

  /** Looking a price up in the bars is looking it up in the trades: the last bar at or before `t` closes at
      the price of the last trade whose minute starts at or before `t`. */
  lemma {:induction false} BarsAgreeWithTrades(trades: seq<Tick>, t: int)
    requires SortedBy(trades, TickTs)
    ensures CloseAt(Bars(trades), LastAtOrBefore(Bars(trades), BarTs, t))
         == PriceAt(trades, LastAtOrBefore(trades, TickMinute, t))
  {
    hide MinuteOf;
    if trades != [] {
      var n := |trades| - 1;
      var bars, before := Bars(trades), Bars(trades[..n]);
      BarsAreSorted(trades);
      if TickMinute(trades[n]) > t {
        BarsAgreeWithTrades(trades[..n], t);
        DropLateBar(before, trades[n], t);
      } else {
        assert LastAtOrBefore(bars, BarTs, t) == Some(|bars| - 1);
      }
    }
  }

  /** A trade in a minute after `t` does not change what is found at `t`. */
  lemma DropLateBar(bars: seq<Bar>, late: Tick, t: int)
    requires TickMinute(late) > t
    ensures CloseAt(AddTick(bars, late), LastAtOrBefore(AddTick(bars, late), BarTs, t))
         == CloseAt(bars, LastAtOrBefore(bars, BarTs, t))
  {
    var after := AddTick(bars, late);
    var n := |bars| - 1;
    if bars != [] && bars[n].minuteTs == TickMinute(late) {
      assert after[..n] == bars[..n];
    } else {
      assert after[..n + 1] == bars;
    }
  }

  /** The reference price is the price of the last trade whose minute starts at or before the cutoff, and
      with an offset of at least one minute that trade lies strictly before the anchor: no look-ahead. */
  lemma ReferencePriceIsLastTrade(trades: seq<Tick>, anchor: int, offset: int)
    requires SortedBy(trades, TickTs)
    ensures var i := LastAtOrBefore(trades, TickMinute, anchor - offset);
            && ReferencePrice(Bars(trades), anchor, offset) == PriceAt(trades, i)
            && (i.Some? && offset >= 60_000 ==> trades[i.value].ts < anchor)
  {
    hide MinuteOf, Bars;
    var cutoff := anchor - offset;
    BarsAreSorted(trades);
    BisectFindsLast(Bars(trades), BarTs, cutoff);
    BarsAgreeWithTrades(trades, cutoff);
    var i := LastAtOrBefore(trades, TickMinute, cutoff);
    if i.Some? {
      StartsBefore(trades[i.value], cutoff);
    }
  }

  lemma StartsBefore(t: Tick, cutoff: int)
    requires TickMinute(t) <= cutoff
    ensures t.ts < cutoff + 60_000
  {
    MinutesIncrease(t.ts, t.ts);
  }

  // ---------------------------------------------------------------------------------------------
  // Nearest record

  const ORDERBOOK_MATCH_MAX_SKEW_MS := 15_000

  function Distance(a: int, b: int): nat {
    if a <= b then b - a else a - b
  }

  /** `i` is within the allowed skew and no record is nearer. */
  ghost predicate IsNearest<T>(records: seq<T>, at: T -> int, anchor: int, i: nat) {
    && i < |records|
    && Distance(at(records[i]), anchor) <= 15_000
    && (forall j :: 0 <= j < |records| ==> Distance(at(records[i]), anchor) <= Distance(at(records[j]), anchor))
  }

  /** No record is nearer than both neighbours of the insertion point. */
  lemma NeighbourIsNearest<T>(records: seq<T>, at: T -> int, anchor: int, insertAt: nat)
    requires SortedBy(records, at) && insertAt <= |records|
    requires forall j :: 0 <= j < insertAt ==> at(records[j]) < anchor
    requires forall j :: insertAt <= j < |records| ==> at(records[j]) >= anchor
    ensures forall j :: 0 <= j < insertAt ==>
              Distance(at(records[insertAt - 1]), anchor) <= Distance(at(records[j]), anchor)
    ensures forall j :: insertAt <= j < |records| ==>
              Distance(at(records[insertAt]), anchor) <= Distance(at(records[j]), anchor)
  {
    forall j | 0 <= j < insertAt ensures at(records[j]) <= at(records[insertAt - 1]) {
    }
    forall j | insertAt <= j < |records| ensures at(records[insertAt]) <= at(records[j]) {
    }
  }

  /** `_nearest_record`: of the two neighbours of the insertion point, the nearer one, the later one on a
      tie. It is a nearest record of the whole list; there is none iff no record is within 15 seconds. */
  method NearestRecord<T>(records: seq<T>, at: T -> int, anchor: int) returns (nearest: Option<nat>)
    requires SortedBy(records, at)
    ensures nearest.Some? ==> IsNearest(records, at, anchor, nearest.value)
    ensures nearest.Some? ==>
              forall j: nat :: IsNearest(records, at, anchor, j) ==> at(records[j]) <= at(records[nearest.value])
    ensures nearest.None? <==>
              forall j :: 0 <= j < |records| ==> Distance(at(records[j]), anchor) > 15_000
  {
    var insertAt := LowerBound(records, at, anchor);
    FirstSeparates(records, at, anchor, insertAt);
    forall j | insertAt <= j < |records| ensures at(records[j]) >= anchor {
      assert at(records[insertAt]) <= at(records[j]);
    }
    nearest := None;
    if insertAt < |records| {
      nearest := Some(insertAt);
    }
    if insertAt > 0 {
      if nearest.None? || Distance(at(records[insertAt - 1]), anchor) < Distance(at(records[insertAt]), anchor) {
        nearest := Some(insertAt - 1);
      }
    }
    NeighbourIsNearest(records, at, anchor, insertAt);
    if nearest.Some? && Distance(at(records[nearest.value]), anchor) > ORDERBOOK_MATCH_MAX_SKEW_MS {
      nearest := None;
    }
  }
}
