/** When a resting maker buy would have filled, in `src/cli/analyze-maker-fill-quality.ts`: the sells that
    trade at or below its price must first consume the queue ahead of it. */
module MakerFill {
  import opened Basics
  import opened Lookups

  datatype TradeTick = TradeTick(ts: int, price: real, volume: Pos, isSell: bool)

  datatype Sample = Sample(ts: int, bid: Pos, bidSize: real)

  function TradeTs(t: TradeTick): int { t.ts }

  /** The trade consumes the queue at the sample's bid. */
  predicate Eats(sample: Sample, t: TradeTick) {
    t.isSell && t.price <= sample.bid
  }

  function Weight(sample: Sample, t: TradeTick): real {
    if sample.ts < t.ts && Eats(sample, t) then t.volume else 0.0
  }

  /** The volume that has eaten into the queue after the sample and through time `t`, in any order of trades. */
  function EatenThrough(trades: seq<TradeTick>, sample: Sample, t: int): real {
    if trades == [] then 0.0
    else
      var last := trades[|trades| - 1];
      EatenThrough(trades[..|trades| - 1], sample, t) + (if last.ts <= t then Weight(sample, last) else 0.0)
  }

  predicate InWindow(sample: Sample, ttlMs: int, t: TradeTick) {
    sample.ts < t.ts <= sample.ts + ttlMs && Eats(sample, t)
  }

  /** `fill` is the earliest time, among the trades of the window that eat into the queue, at which the
      eaten volume reaches the queue plus the order; `None` means it is reached at none of them. */
  ghost predicate IsFill(trades: seq<TradeTick>, sample: Sample, quantity: real, ttlMs: int, fill: Option<int>) {
    var needed := sample.bidSize + quantity;
    match fill
    case Some(t) =>
      && (exists i :: 0 <= i < |trades| && InWindow(sample, ttlMs, trades[i]) && trades[i].ts == t)
      && EatenThrough(trades, sample, t) >= needed
      && (forall i :: 0 <= i < |trades| && InWindow(sample, ttlMs, trades[i]) && trades[i].ts < t ==>
            EatenThrough(trades, sample, trades[i].ts) < needed)
    case None =>
      forall i :: 0 <= i < |trades| && InWindow(sample, ttlMs, trades[i]) ==>
        EatenThrough(trades, sample, trades[i].ts) < needed
  }

  // ---------------------------------------------------------------------------------------------
  // Sums along the sorted trades

  function WeightSum(trades: seq<TradeTick>, sample: Sample, n: nat): (s: real)
    requires n <= |trades|
    ensures s >= 0.0
  {
    if n == 0 then 0.0 else WeightSum(trades, sample, n - 1) + Weight(sample, trades[n - 1])
  }

  lemma {:induction false} WeightSumMonotone(trades: seq<TradeTick>, sample: Sample, m: nat, n: nat)
    requires m <= n <= |trades|
    ensures WeightSum(trades, sample, m) <= WeightSum(trades, sample, n)
  {
    if m < n {
      WeightSumMonotone(trades, sample, m, n - 1);
    }
  }

  lemma {:induction false} WeightSumPrefix(trades: seq<TradeTick>, sample: Sample, n: nat, m: nat)
    requires n <= m <= |trades|
    ensures WeightSum(trades[..m], sample, n) == WeightSum(trades, sample, n)
  {
    if n > 0 {
      WeightSumPrefix(trades, sample, n - 1, m);
    }
  }

  /** Through time `t` exactly the first `n` trades count, when `n` separates them. */
  lemma {:induction false} EatenIsPrefixSum(trades: seq<TradeTick>, sample: Sample, t: int, n: nat)
    requires n <= |trades|
    requires forall j :: 0 <= j < n ==> trades[j].ts <= t
    requires forall j :: n <= j < |trades| ==> t < trades[j].ts
    ensures EatenThrough(trades, sample, t) == WeightSum(trades, sample, n)
  {
    if trades != [] {
      var m := |trades| - 1;
      if n == |trades| {
        EatenIsPrefixSum(trades[..m], sample, t, m);
        WeightSumPrefix(trades, sample, m, m);
      } else {
        EatenIsPrefixSum(trades[..m], sample, t, n);
        WeightSumPrefix(trades, sample, n, m);
      }
    }
  }

  /** Through time `t` at least the trades up to one at `t` count, and at most those before one after `t`. */
  lemma EatenBounds(trades: seq<TradeTick>, sample: Sample, t: int, i: nat)
    requires SortedBy(trades, TradeTs) && i < |trades|
    ensures trades[i].ts <= t ==> EatenThrough(trades, sample, t) >= WeightSum(trades, sample, i + 1)
    ensures t < trades[i].ts ==> EatenThrough(trades, sample, t) <= WeightSum(trades, sample, i)
  {
    var n := FirstAtOrAfter(trades, TradeTs, t + 1);
    FirstSeparates(trades, TradeTs, t + 1, n);
    assert forall j :: n <= j < |trades| ==> TradeTs(trades[j]) >= TradeTs(trades[n]);
    assert forall j :: 0 <= j < n ==> TradeTs(trades[j]) < t + 1;
    EatenIsPrefixSum(trades, sample, t, n);
    if trades[i].ts <= t {
      assert TradeTs(trades[i]) <= t;
      WeightSumMonotone(trades, sample, i + 1, n);
    } else {
      assert TradeTs(trades[i]) > t;
      WeightSumMonotone(trades, sample, n, i);
    }
  }

  lemma {:induction false} NothingBefore(trades: seq<TradeTick>, sample: Sample, n: nat)
    requires n <= |trades| && forall j :: 0 <= j < n ==> trades[j].ts <= sample.ts
    ensures WeightSum(trades, sample, n) == 0.0
  {
    if n > 0 {
      NothingBefore(trades, sample, n - 1);
    }
  }

  // ---------------------------------------------------------------------------------------------
  // The search

  /** Adding the next trade after the sample. */
  lemma WeightStep(trades: seq<TradeTick>, sample: Sample, index: nat)
    requires index < |trades| && sample.ts < trades[index].ts
    ensures WeightSum(trades, sample, index + 1)
         == WeightSum(trades, sample, index) + (if Eats(sample, trades[index]) then trades[index].volume else 0.0)
    ensures Eats(sample, trades[index]) <==> trades[index].isSell && trades[index].price <= sample.bid
  {
  }

  /** `findMakerBuyFill`: start at the first trade after the sample, stop at the first one after expiry. */
  method FindMakerBuyFill(sample: Sample, trades: seq<TradeTick>, quantity: real, ttlMs: int)
    returns (fill: Option<int>)
    requires SortedBy(trades, TradeTs)
    ensures IsFill(trades, sample, quantity, ttlMs, fill)
  {
    hide IsFill, WeightSum, Eats, Weight;
    var needed := sample.bidSize + quantity;
    var eaten := 0.0;
    var index := LowerBound(trades, TradeTs, sample.ts + 1);
    FirstSeparates(trades, TradeTs, sample.ts + 1, index);
    assert forall j :: 0 <= j < index ==> TradeTs(trades[j]) <= sample.ts;
    NothingBefore(trades, sample, index);
    ghost var seen := false;
    while index < |trades|
      invariant 0 <= index <= |trades|
      invariant eaten == WeightSum(trades, sample, index)
      invariant seen <==> exists j :: 0 <= j < index && InWindow(sample, ttlMs, trades[j])
      invariant seen ==> eaten < needed
      invariant index < |trades| ==> sample.ts < trades[index].ts
    {
      var trade := trades[index];
      if trade.ts > sample.ts + ttlMs {
        break;
      }
      WeightStep(trades, sample, index);
      if trade.isSell && trade.price <= sample.bid {
        eaten := eaten + trade.volume;
        if eaten >= needed {
          EarliestFill(trades, sample, quantity, ttlMs, index);
          return Some(trade.ts);
        }
        seen := true;
      }
      if index + 1 < |trades| {
        assert TradeTs(trades[index]) <= TradeTs(trades[index + 1]);
      }
      index := index + 1;
    }
    NoFill(trades, sample, quantity, ttlMs, index);
    fill := None;
  }

  lemma InOrder(trades: seq<TradeTick>, i: nat, j: nat)
    requires SortedBy(trades, TradeTs) && i < |trades| && j < |trades|
    ensures i <= j ==> trades[i].ts <= trades[j].ts
  {
    if i < j {
      assert TradeTs(trades[i]) <= TradeTs(trades[j]);
    }
  }

  lemma EarliestFill(trades: seq<TradeTick>, sample: Sample, quantity: real, ttlMs: int, index: nat)
    requires SortedBy(trades, TradeTs) && index < |trades| && InWindow(sample, ttlMs, trades[index])
    requires WeightSum(trades, sample, index + 1) >= sample.bidSize + quantity
    requires (exists j :: 0 <= j < index && InWindow(sample, ttlMs, trades[j])) ==>
               WeightSum(trades, sample, index) < sample.bidSize + quantity
    ensures IsFill(trades, sample, quantity, ttlMs, Some(trades[index].ts))
  {
    EatenBounds(trades, sample, trades[index].ts, index);
    forall i | 0 <= i < |trades| && InWindow(sample, ttlMs, trades[i]) && trades[i].ts < trades[index].ts
      ensures EatenThrough(trades, sample, trades[i].ts) < sample.bidSize + quantity
    {
      InOrder(trades, index, i);
      EatenBounds(trades, sample, trades[i].ts, index);
    }
  }

  lemma NoFill(trades: seq<TradeTick>, sample: Sample, quantity: real, ttlMs: int, index: nat)
    requires SortedBy(trades, TradeTs) && index <= |trades|
    requires index < |trades| ==> trades[index].ts > sample.ts + ttlMs
    requires (exists j :: 0 <= j < index && InWindow(sample, ttlMs, trades[j])) ==>
               WeightSum(trades, sample, index) < sample.bidSize + quantity
    ensures IsFill(trades, sample, quantity, ttlMs, None)
  {
    forall i | 0 <= i < |trades| && InWindow(sample, ttlMs, trades[i])
      ensures EatenThrough(trades, sample, trades[i].ts) < sample.bidSize + quantity
    {
      if index < |trades| {
        InOrder(trades, index, i);
        EatenBounds(trades, sample, trades[i].ts, index);
      } else {
        EatenAtMost(trades, sample, trades[i].ts);
      }
    }
  }

  lemma EatenAtMost(trades: seq<TradeTick>, sample: Sample, t: int)
    requires SortedBy(trades, TradeTs)
    ensures EatenThrough(trades, sample, t) <= WeightSum(trades, sample, |trades|)
  {
    var n := FirstAtOrAfter(trades, TradeTs, t + 1);
    FirstSeparates(trades, TradeTs, t + 1, n);
    assert forall j :: n <= j < |trades| ==> TradeTs(trades[j]) >= TradeTs(trades[n]);
    assert forall j :: 0 <= j < n ==> TradeTs(trades[j]) < t + 1;
    EatenIsPrefixSum(trades, sample, t, n);
    WeightSumMonotone(trades, sample, n, |trades|);
  }

  // ---------------------------------------------------------------------------------------------
  // Exactness and monotonicity

  lemma FillIsUnique(trades: seq<TradeTick>, sample: Sample, quantity: real, ttlMs: int, a: Option<int>, b: Option<int>)
    requires IsFill(trades, sample, quantity, ttlMs, a) && IsFill(trades, sample, quantity, ttlMs, b)
    ensures a == b
  {
  }

  /** An order behind a longer queue, or for more, never fills earlier. */
  lemma MoreNeverFillsEarlier(
    trades: seq<TradeTick>, sample: Sample, queue: real, quantity: real, larger: real, ttlMs: int,
    fill: Option<int>, later: Option<int>)
    requires sample.bidSize + quantity <= queue + larger
    requires IsFill(trades, sample, quantity, ttlMs, fill)
    requires IsFill(trades, sample.(bidSize := queue), larger, ttlMs, later)
    ensures later.Some? ==> fill.Some? && fill.value <= later.value
  {
    var behind := sample.(bidSize := queue);
    if later.Some? {
      var i :| 0 <= i < |trades| && InWindow(behind, ttlMs, trades[i]) && trades[i].ts == later.value;
      assert InWindow(sample, ttlMs, trades[i]);
      QueueDoesNotEat(trades, sample, queue, later.value);
    }
  }

  lemma {:induction false} QueueDoesNotEat(trades: seq<TradeTick>, sample: Sample, queue: real, t: int)
    ensures EatenThrough(trades, sample.(bidSize := queue), t) == EatenThrough(trades, sample, t)
  {
    if trades != [] {
      QueueDoesNotEat(trades[..|trades| - 1], sample, queue, t);
    }
  }

  /** Waiting longer never changes a fill that happened, and only adds fills after the old expiry. */
  lemma LongerWaitKeepsFills(
    trades: seq<TradeTick>, sample: Sample, quantity: real, ttlMs: int, longer: int,
    fill: Option<int>, withLonger: Option<int>)
    requires ttlMs <= longer
    requires IsFill(trades, sample, quantity, ttlMs, fill)
    requires IsFill(trades, sample, quantity, longer, withLonger)
    ensures fill.Some? ==> withLonger == fill
    ensures fill.None? && withLonger.Some? ==> withLonger.value > sample.ts + ttlMs
  {
    if fill.Some? {
      var i :| 0 <= i < |trades| && InWindow(sample, ttlMs, trades[i]) && trades[i].ts == fill.value;
      assert InWindow(sample, longer, trades[i]);
      if withLonger.Some? {
        var j :| 0 <= j < |trades| && InWindow(sample, longer, trades[j]) && trades[j].ts == withLonger.value;
      }
    } else if withLonger.Some? {
      var j :| 0 <= j < |trades| && InWindow(sample, longer, trades[j]) && trades[j].ts == withLonger.value;
    }
  }

  /** When something has to be eaten at all, a fill is the first instant at which enough is, and there is no
      fill exactly when not enough is eaten by the expiry. */
  lemma FillIsFirstInstant(trades: seq<TradeTick>, sample: Sample, quantity: real, ttlMs: int, fill: Option<int>)
    requires SortedBy(trades, TradeTs) && ttlMs >= 0
    requires sample.bidSize + quantity > 0.0
    requires IsFill(trades, sample, quantity, ttlMs, fill)
    ensures fill.None? <==> EatenThrough(trades, sample, sample.ts + ttlMs) < sample.bidSize + quantity
    ensures fill.Some? ==> forall u :: u < fill.value ==> EatenThrough(trades, sample, u) < sample.bidSize + quantity
  {
    if fill.Some? {
      var i :| 0 <= i < |trades| && InWindow(sample, ttlMs, trades[i]) && trades[i].ts == fill.value;
      EatenMonotone(trades, sample, fill.value, sample.ts + ttlMs);
      forall u | u < fill.value ensures EatenThrough(trades, sample, u) < sample.bidSize + quantity {
        EatenAtLastEater(trades, sample, u);
      }
    } else {
      EatenAtLastEater(trades, sample, sample.ts + ttlMs);
    }
  }

  /** A queue and order that sum to nothing is "reached" at once, but fills only at the first eating trade of
      the window, and not at all without one. */
  lemma FreeOrderWaitsForTrade(trades: seq<TradeTick>, sample: Sample, quantity: real, ttlMs: int, fill: Option<int>)
    requires sample.bidSize + quantity <= 0.0
    requires IsFill(trades, sample, quantity, ttlMs, fill)
    ensures EatenThrough(trades, sample, sample.ts) >= sample.bidSize + quantity
    ensures fill.Some? <==> exists i :: 0 <= i < |trades| && InWindow(sample, ttlMs, trades[i])
    ensures forall i :: 0 <= i < |trades| && InWindow(sample, ttlMs, trades[i]) ==>
              fill.Some? && fill.value <= trades[i].ts
  {
    EatenNonNegative(trades, sample, sample.ts);
    forall i | 0 <= i < |trades| && InWindow(sample, ttlMs, trades[i])
      ensures fill.Some? && fill.value <= trades[i].ts
    {
      EatenNonNegative(trades, sample, trades[i].ts);
    }
  }

  lemma {:induction false} EatenNonNegative(trades: seq<TradeTick>, sample: Sample, t: int)
    ensures EatenThrough(trades, sample, t) >= 0.0
  {
    if trades != [] {
      EatenNonNegative(trades[..|trades| - 1], sample, t);
    }
  }

  lemma {:induction false} EatenMonotone(trades: seq<TradeTick>, sample: Sample, t: int, u: int)
    requires t <= u
    ensures EatenThrough(trades, sample, t) <= EatenThrough(trades, sample, u)
  {
    if trades != [] {
      EatenMonotone(trades[..|trades| - 1], sample, t, u);
    }
  }

  /** The eaten volume is that at some eating trade not after `u`, or nothing. */
  lemma {:induction false} EatenAtLastEater(trades: seq<TradeTick>, sample: Sample, u: int)
    requires SortedBy(trades, TradeTs)
    ensures || EatenThrough(trades, sample, u) == 0.0
            || exists i :: 0 <= i < |trades| && sample.ts < trades[i].ts <= u && Eats(sample, trades[i])
                           && EatenThrough(trades, sample, trades[i].ts) == EatenThrough(trades, sample, u)
  {
    if trades != [] {
      var m := |trades| - 1;
      var last, init := trades[m], trades[..m];
      if last.ts <= u && Weight(sample, last) > 0.0 {
        AllThrough(trades, sample, last.ts, u);
      } else {
        assert EatenThrough(trades, sample, u) == EatenThrough(init, sample, u);
        EatenAtLastEater(init, sample, u);
        if EatenThrough(init, sample, u) != 0.0 {
          var i :| 0 <= i < m && sample.ts < init[i].ts <= u && Eats(sample, init[i])
                   && EatenThrough(init, sample, init[i].ts) == EatenThrough(init, sample, u);
          assert trades[i] == init[i];
          assert EatenThrough(trades, sample, init[i].ts) == EatenThrough(init, sample, init[i].ts);
        }
      }
    }
  }

  lemma {:induction false} AllThrough(trades: seq<TradeTick>, sample: Sample, t: int, u: int)
    requires t <= u && forall j :: 0 <= j < |trades| ==> TradeTs(trades[j]) <= t
    ensures EatenThrough(trades, sample, t) == EatenThrough(trades, sample, u)
  {
    if trades != [] {
      AllThrough(trades[..|trades| - 1], sample, t, u);
      assert TradeTs(trades[|trades| - 1]) <= t;
    }
  }
}
