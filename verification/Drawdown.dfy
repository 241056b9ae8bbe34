/** The maximum drawdown of a capital path, in `src/cli/analyze-bithumb-candidate-benchmark.ts`. */
module Drawdown {
  import opened Basics
  import opened RealArithmetic

  /** The relative change from `from` to `to`. */
  function Drop(from: Pos, to: real): real {
    to / from - 1.0
  }

  /** The highest value up to `j`. */
  function PeakAt(path: seq<real>, j: nat): (peak: real)
    requires j < |path|
    ensures forall k :: 0 <= k <= j ==> path[k] <= peak
    ensures exists k :: 0 <= k <= j && path[k] == peak
  {
    if j == 0 then path[0] else Max(PeakAt(path, j - 1), path[j])
  }

  /** How far the path is below its running peak at `j`; nothing while the peak is not positive. */
  function Fall(path: seq<real>, j: nat): real
    requires j < |path|
  {
    if PeakAt(path, j) > 0.0 then Drop(PeakAt(path, j), path[j]) else 0.0
  }

  /** `worst` is the deepest fall, zero if there is none. */
  ghost predicate IsWorstFall(path: seq<real>, n: nat, worst: real)
    requires n <= |path|
  {
    && worst <= 0.0
    && (forall j :: 0 <= j < n ==> worst <= Fall(path, j))
    && (worst == 0.0 || exists j :: 0 <= j < n && worst == Fall(path, j))
  }

  lemma NoFallYet(path: seq<real>)
    ensures IsWorstFall(path, 0, 0.0)
  {
  }

  lemma FallStep(path: seq<real>, n: nat, worst: real)
    requires n < |path| && IsWorstFall(path, n, worst)
    ensures PeakAt(path, n) == Max(if n == 0 then path[0] else PeakAt(path, n - 1), path[n])
    ensures IsWorstFall(path, n + 1, Min(worst, Fall(path, n)))
    ensures worst <= 0.0
  {
    hide Fall;
    if worst != 0.0 {
      var j :| 0 <= j < n && worst == Fall(path, j);
    }
    assert Min(worst, Fall(path, n)) in {worst, Fall(path, n)};
  }

  method MaxDrawdown(path: seq<real>) returns (worst: real)
    ensures IsWorstFall(path, |path|, worst)
  {
    hide Drop, IsWorstFall, PeakAt;
    worst := 0.0;
    NoFallYet(path);
    if path == [] {
      return;
    }
    var peak := path[0];
    for n := 0 to |path|
      invariant peak == if n == 0 then path[0] else PeakAt(path, n - 1)
      invariant IsWorstFall(path, n, worst)
    {
      FallStep(path, n, worst);
      peak := Max(peak, path[n]);
      if peak > 0.0 {
        worst := Min(worst, Drop(peak, path[n]));
      }
    }
  }

  /** No earlier positive moment is further above the path at `j` than the running peak is. */
  ghost predicate PeakIsDeepest(path: seq<real>, j: nat)
    requires j < |path|
  {
    forall i :: 0 <= i <= j && path[i] > 0.0 ==> Fall(path, j) <= Drop(path[i], path[j])
  }

  /** The path is not in debt at `j`, or every positive moment up to `j` was at the peak. */
  ghost predicate NoDebtAfterFall(path: seq<real>, j: nat)
    requires j < |path|
  {
    path[j] >= 0.0 || forall i :: 0 <= i <= j && path[i] > 0.0 ==> path[i] == PeakAt(path, j)
  }

  /** Exactly when the fall from the running peak is the worst fall to a moment from any before it. */
  lemma PeakIsDeepestIff(path: seq<real>, j: nat)
    requires j < |path|
    ensures PeakIsDeepest(path, j) <==> NoDebtAfterFall(path, j)
  {
    hide Drop;
    var peak := PeakAt(path, j);
    forall i | 0 <= i <= j && path[i] > 0.0
      ensures path[j] >= 0.0 ==> Drop(peak, path[j]) <= Drop(path[i], path[j])
      ensures path[j] < 0.0 && path[i] < peak ==> Drop(path[i], path[j]) < Drop(peak, path[j])
    {
      CompareDrops(path[i], peak, path[j]);
    }
  }

  lemma CompareDrops(low: Pos, high: Pos, to: real)
    requires low <= high
    ensures to >= 0.0 ==> Drop(high, to) <= Drop(low, to)
    ensures to < 0.0 && low < high ==> Drop(low, to) < Drop(high, to)
  {
    var x, y := to / high, to / low;
    assert x * high == to && y * low == to;
    CancelFactor(low, x, y);
    if to >= 0.0 {
      assert x >= 0.0 && x * (high - low) >= 0.0;
    } else if low < high {
      Negate(x, high - low);
    }
  }

  lemma Negate(x: real, d: real)
    requires x < 0.0 && d > 0.0
    ensures x * d < 0.0
  {
  }

  /** So while the path is nowhere in debt after a fall, and in particular while capital stays non-negative, the
      drawdown is the worst fall between any two moments: no pair falls further, and some pair falls as far. */
  lemma WorstOfAllPairs(path: seq<real>, worst: real)
    requires IsWorstFall(path, |path|, worst) && forall j :: 0 <= j < |path| ==> NoDebtAfterFall(path, j)
    ensures forall i, j :: 0 <= i <= j < |path| && path[i] > 0.0 ==> worst <= Drop(path[i], path[j])
    ensures worst == 0.0 || exists i, j :: 0 <= i <= j < |path| && path[i] > 0.0 && worst == Drop(path[i], path[j])
  {
    hide Drop, NoDebtAfterFall;
    forall i, j | 0 <= i <= j < |path| && path[i] > 0.0 ensures worst <= Drop(path[i], path[j]) {
      PeakIsDeepestIff(path, j);
      assert worst <= Fall(path, j);
    }
    if worst != 0.0 {
      var j :| 0 <= j < |path| && worst == Fall(path, j);
      var i :| 0 <= i <= j && path[i] == PeakAt(path, j);
    }
  }

  /** `worst` bounds the fall of every pair of moments, or of those that end in debt. */
  ghost predicate BoundsPairs(path: seq<real>, worst: real, indebtedOnly: bool) {
    forall i, j :: 0 <= i <= j < |path| && path[i] > 0.0 && (indebtedOnly ==> path[j] < 0.0) ==>
      worst <= Drop(path[i], path[j])
  }

  /** Only debt matters: the drawdown bounds the fall of every pair iff it bounds those of the pairs that end in
      debt. */
  lemma DebtDecides(path: seq<real>, worst: real)
    requires IsWorstFall(path, |path|, worst)
    ensures BoundsPairs(path, worst, false) <==> BoundsPairs(path, worst, true)
  {
    hide Drop;
    forall i, j | 0 <= i <= j < |path| && path[i] > 0.0 && path[j] >= 0.0 ensures worst <= Drop(path[i], path[j]) {
      PeakIsDeepestIff(path, j);
      assert worst <= Fall(path, j);
    }
  }

  /** With debt it is not: from 1 over 2 to -1 the path falls 150% from its peak, but 200% from its start. */
  lemma DebtFallsFurther(worst: real)
    requires IsWorstFall([1.0, 2.0, -1.0], 3, worst)
    ensures worst == -1.5 && Drop(1.0, -1.0) == -2.0
  {
    var path: seq<real> := [1.0, 2.0, -1.0];
    assert PeakAt(path, 0) == 1.0 && PeakAt(path, 1) == 2.0 && PeakAt(path, 2) == 2.0;
    assert Fall(path, 2) == -1.5;
  }
}
