/** The greedy choice of non-overlapping entries shared by the candle simulators, and its optimality. */
module Greedy {
  import opened Basics

  /** Entries taken by a loop over `[i, stop)` that enters at every passing index not before `next`. */
  function Entries(pass: seq<bool>, hold: nat, i: nat, stop: nat, next: int): seq<nat>
    requires stop <= |pass|
    decreases stop - i
  {
    if i >= stop then []
    else if i >= next && pass[i] then [i] + Entries(pass, hold, i + 1, stop, i + hold)
    else Entries(pass, hold, i + 1, stop, next)
  }

  /** Any other way of choosing passing indices of `[from, stop)` at least `hold` apart. */
  ghost predicate IsRival(pass: seq<bool>, hold: nat, from: int, stop: nat, r: seq<nat>)
    requires stop <= |pass|
  {
    && (forall k :: 0 <= k < |r| ==> from <= r[k] < stop && pass[r[k]])
    && (forall j, k :: 0 <= j < k < |r| ==> r[j] < r[k] && r[j] + hold <= r[k])
  }

  /** The greedy entries are themselves such a choice. */
  lemma {:induction false} GreedyIsRival(pass: seq<bool>, hold: nat, i: nat, stop: nat, next: int)
    requires stop <= |pass|
    ensures IsRival(pass, hold, MaxInt(i, next), stop, Entries(pass, hold, i, stop, next))
    decreases stop - i
  {
    if i < stop {
      if i >= next && pass[i] {
        GreedyIsRival(pass, hold, i + 1, stop, i + hold);
      } else {
        GreedyIsRival(pass, hold, i + 1, stop, next);
      }
    }
  }

  /** Greedy stays ahead: no rival has more entries, and its k-th entry is never earlier. */
  lemma {:induction false} GreedyStaysAhead(pass: seq<bool>, hold: nat, i: nat, stop: nat, next: int, r: seq<nat>)
    requires stop <= |pass| && IsRival(pass, hold, MaxInt(i, next), stop, r)
    ensures var g := Entries(pass, hold, i, stop, next);
            |r| <= |g| && forall k :: 0 <= k < |r| ==> g[k] <= r[k]
    decreases stop - i
  {
    if r != [] {
      if i >= next && pass[i] {
        GreedyStaysAhead(pass, hold, i + 1, stop, i + hold, r[1..]);
        var g := Entries(pass, hold, i, stop, next);
        forall k | 0 <= k < |r| ensures k < |g| && g[k] <= r[k] {
          if k > 0 {
            assert g[k] == g[1..][k - 1] && r[k] == r[1..][k - 1];
          }
        }
      } else {
        assert r[0] != i;
        GreedyStaysAhead(pass, hold, i + 1, stop, next, r);
      }
    }
  }

  /** Tightening the filter never yields more entries, nor an earlier k-th one. */
  lemma StricterFilterIsBehind(pass: seq<bool>, gated: seq<bool>, hold: nat, i: nat, stop: nat, next: int)
    requires |gated| == |pass| && stop <= |pass|
    requires forall k :: 0 <= k < |pass| && gated[k] ==> pass[k]
    ensures var g, b := Entries(gated, hold, i, stop, next), Entries(pass, hold, i, stop, next);
            |g| <= |b| && forall k :: 0 <= k < |g| ==> b[k] <= g[k]
  {
    GreedyIsRival(gated, hold, i, stop, next);
    GreedyStaysAhead(pass, hold, i, stop, next, Entries(gated, hold, i, stop, next));
  }

  // ---------------------------------------------------------------------------------------------
  // Entries whose holding time varies

  /** Entries taken by the same loop when an entry at `e` blocks further ones until `exits[e]`. */
  function Chosen(pass: seq<bool>, exits: seq<nat>, i: nat, stop: nat, next: int): (s: seq<nat>)
    requires stop <= |pass| && stop <= |exits|
    ensures forall k :: 0 <= k < |s| ==> i <= s[k] < stop && next <= s[k] && pass[s[k]]
    decreases stop - i
  {
    if i >= stop then []
    else if i >= next && pass[i] then [i] + Chosen(pass, exits, i + 1, stop, exits[i])
    else Chosen(pass, exits, i + 1, stop, next)
  }

  ghost predicate ForwardExits(exits: seq<nat>) {
    forall e :: 0 <= e < |exits| ==> e <= exits[e]
  }

  ghost predicate Follow(s: seq<nat>, exits: seq<nat>) {
    && (forall k :: 0 <= k < |s| ==> s[k] < |exits|)
    && (forall j, k :: 0 <= j < k < |s| ==> s[j] < s[k] && exits[s[j]] <= s[k])
  }

  /** Each entry is strictly later than the one before and no earlier than its exit. */
  lemma {:induction false} ChosenFollow(pass: seq<bool>, exits: seq<nat>, i: nat, stop: nat, next: int)
    requires stop <= |pass| && stop <= |exits|
    ensures Follow(Chosen(pass, exits, i, stop, next), exits)
    decreases stop - i
  {
    if i < stop {
      if i >= next && pass[i] {
        ChosenFollow(pass, exits, i + 1, stop, exits[i]);
      } else {
        ChosenFollow(pass, exits, i + 1, stop, next);
      }
    }
  }

  /** One pass of either loop. */
  lemma LoopStep(pass: seq<bool>, exits: seq<nat>, hold: nat, i: nat, stop: nat, next: int)
    requires stop <= |pass| && stop <= |exits|
    ensures Chosen(pass, exits, i, stop, next)
         == (if i >= stop then []
             else if i >= next && pass[i] then [i] + Chosen(pass, exits, i + 1, stop, exits[i])
             else Chosen(pass, exits, i + 1, stop, next))
    ensures Entries(pass, hold, i, stop, next)
         == (if i >= stop then []
             else if i >= next && pass[i] then [i] + Entries(pass, hold, i + 1, stop, i + hold)
             else Entries(pass, hold, i + 1, stop, next))
  {
  }

  /** With a fixed holding time this is the greedy choice above. */
  lemma {:induction false} FixedExitsAreGreedy(
    pass: seq<bool>, exits: seq<nat>, hold: nat, i: nat, stop: nat, next: int)
    requires stop <= |pass| && stop <= |exits|
    requires forall e :: 0 <= e < stop ==> exits[e] == e + hold
    ensures Chosen(pass, exits, i, stop, next) == Entries(pass, hold, i, stop, next)
    decreases stop - i
  {
    hide Chosen, Entries;
    LoopStep(pass, exits, hold, i, stop, next);
    if i < stop {
      if i >= next && pass[i] {
        assert exits[i] == i + hold;
        FixedExitsAreGreedy(pass, exits, hold, i + 1, stop, i + hold);
      } else {
        FixedExitsAreGreedy(pass, exits, hold, i + 1, stop, next);
      }
    }
  }

  /** Nothing is chosen while a bar is blocked or does not pass. */
  lemma {:induction false} IdleUntil(pass: seq<bool>, exits: seq<nat>, i: nat, j: nat, stop: nat, next: int)
    requires stop <= |pass| && stop <= |exits| && i <= j <= stop
    requires forall c :: i <= c < j ==> c < next || !pass[c]
    ensures Chosen(pass, exits, i, stop, next) == Chosen(pass, exits, j, stop, next)
    decreases j - i
  {
    if i < j {
      IdleUntil(pass, exits, i + 1, j, stop, next);
    }
  }

  /** A bar that is taken blocks the loop until its exit. */
  lemma TakeThenWait(pass: seq<bool>, exits: seq<nat>, i: nat, stop: nat, next: int)
    requires next <= i < stop <= |pass| && stop <= |exits| && pass[i] && i < exits[i]
    ensures Chosen(pass, exits, i, stop, next)
         == [i] + Chosen(pass, exits, MinInt(exits[i], stop), stop, exits[i])
  {
    IdleUntil(pass, exits, i + 1, MinInt(exits[i], stop), stop, exits[i]);
  }

  // ---------------------------------------------------------------------------------------------
  // Cutting the range and starting over

  /** From when on the loop may enter again after the entries `s`. */
  function Released(s: seq<nat>, exits: seq<nat>, next: int): int
    requires forall j :: 0 <= j < |s| ==> s[j] < |exits|
  {
    if s == [] then next else exits[s[|s| - 1]]
  }

  /** The loop over a range is the loop over its first part, continued. */
  lemma {:induction false} ChosenSplits(pass: seq<bool>, exits: seq<nat>, i: nat, m: nat, stop: nat, next: int)
    requires i <= m <= stop <= |pass| && stop <= |exits|
    ensures var left := Chosen(pass, exits, i, m, next);
            Chosen(pass, exits, i, stop, next) == left + Chosen(pass, exits, m, stop, Released(left, exits, next))
    decreases m - i
  {
    hide Released;
    if i == m {
      NothingReleased(pass, exits, i, next);
    } else {
      if i >= next && pass[i] {
        ChosenSplits(pass, exits, i + 1, m, stop, exits[i]);
        var later := Chosen(pass, exits, i + 1, m, exits[i]);
        ReleasedCons(i, later, exits, next);
        ConcatAssociates(i, later, Chosen(pass, exits, m, stop, Released(later, exits, exits[i])));
      } else {
        ChosenSplits(pass, exits, i + 1, m, stop, next);
      }
    }
  }

  lemma NothingReleased(pass: seq<bool>, exits: seq<nat>, i: nat, next: int)
    requires i <= |pass| && i <= |exits|
    ensures Chosen(pass, exits, i, i, next) == [] && Released([], exits, next) == next
  {
  }

  lemma ConcatAssociates(i: nat, s: seq<nat>, t: seq<nat>)
    ensures [i] + (s + t) == ([i] + s) + t
  {
  }

  lemma ReleasedCons(i: nat, later: seq<nat>, exits: seq<nat>, next: int)
    requires i < |exits| && forall j :: 0 <= j < |later| ==> later[j] < |exits|
    ensures Released([i] + later, exits, next) == Released(later, exits, exits[i])
  {
  }

  /** Being blocked longer changes the choice exactly when a bar passes in the meantime. */
  lemma {:induction false} BlockedLonger(
    pass: seq<bool>, exits: seq<nat>, i: nat, stop: nat, early: int, late: int)
    requires stop <= |pass| && stop <= |exits| && early <= late
    ensures Chosen(pass, exits, i, stop, early) == Chosen(pass, exits, i, stop, late)
       <==> forall c :: i <= c < stop && early <= c < late ==> !pass[c]
    decreases stop - i
  {
    if i < stop {
      if i < early || !pass[i] {
        BlockedLonger(pass, exits, i + 1, stop, early, late);
      } else if i < late {
        assert Chosen(pass, exits, i, stop, early)[0] == i;
      }
    }
  }

  /** No bar of `[m, b)` passes while the last of the entries `left` is still open. */
  ghost predicate NoneMissed(pass: seq<bool>, exits: seq<nat>, left: seq<nat>, m: nat, b: nat)
    requires b <= |pass| && forall j :: 0 <= j < |left| ==> left[j] < |exits|
  {
    left != [] ==> forall c :: m <= c < b && c < exits[left[|left| - 1]] ==> !pass[c]
  }

  /** Cutting `[a, b)` at `m` and starting over gives the same entries exactly when no bar after the cut
      passes while the last trade before it is still open. */
  lemma RestartAgreesIff(pass: seq<bool>, exits: seq<nat>, a: nat, m: nat, b: nat)
    requires a <= m <= b <= |pass| && b <= |exits|
    ensures var left := Chosen(pass, exits, a, m, a);
            Chosen(pass, exits, a, b, a) == left + Chosen(pass, exits, m, b, m) <==> NoneMissed(pass, exits, left, m, b)
  {
    var left := Chosen(pass, exits, a, m, a);
    var free := Released(left, exits, a);
    ChosenSplits(pass, exits, a, m, b, a);
    TailsAgree(left, Chosen(pass, exits, m, b, free), Chosen(pass, exits, m, b, m));
    if free <= m {
      BlockedLonger(pass, exits, m, b, free, m);
    } else {
      BlockedLonger(pass, exits, m, b, m, free);
    }
  }

  lemma TailsAgree(left: seq<nat>, s: seq<nat>, t: seq<nat>)
    ensures left + s == left + t <==> s == t
  {
    if left + s == left + t {
      assert (left + s)[|left|..] == s && (left + t)[|left|..] == t;
    }
  }

  ghost predicate Ascending(bounds: seq<nat>) {
    forall f, g :: 0 <= f <= g < |bounds| ==> bounds[f] <= bounds[g]
  }

  /** The first `f` folds, each started over at its own bound, one after another. */
  function Folded(pass: seq<bool>, exits: seq<nat>, bounds: seq<nat>, f: nat): (s: seq<nat>)
    requires f < |bounds| && Ascending(bounds) && bounds[f] <= |pass| && bounds[f] <= |exits|
    ensures forall j :: 0 <= j < |s| ==> s[j] < bounds[f]
  {
    if f == 0 then []
    else Folded(pass, exits, bounds, f - 1) + Chosen(pass, exits, bounds[f - 1], bounds[f], bounds[f - 1])
  }

  /** Two ways of splitting at the same bound are the same way. */
  lemma SplitUnique(a: seq<nat>, b: seq<nat>, c: seq<nat>, d: seq<nat>, m: nat)
    requires a + b == c + d
    requires forall j :: 0 <= j < |a| ==> a[j] < m
    requires forall j :: 0 <= j < |c| ==> c[j] < m
    requires forall j :: 0 <= j < |b| ==> m <= b[j]
    requires forall j :: 0 <= j < |d| ==> m <= d[j]
    ensures a == c && b == d
  {
    var w := a + b;
    assert |a| < |w| ==> w[|a|] == b[0];
    assert |c| < |w| ==> w[|c|] == d[0];
    assert (a + b)[..|a|] == a && (c + d)[..|c|] == c;
    assert (a + b)[|a|..] == b && (c + d)[|c|..] == d;
  }

  /** If the folds agree with the whole up to one bound, they do up to every earlier one. */
  lemma {:induction false} FoldedPrefix(pass: seq<bool>, exits: seq<nat>, bounds: seq<nat>, f: nat, k: nat)
    requires f <= k < |bounds| && Ascending(bounds) && bounds[k] <= |pass| && bounds[k] <= |exits|
    requires Folded(pass, exits, bounds, k) == Chosen(pass, exits, bounds[0], bounds[k], bounds[0])
    ensures Folded(pass, exits, bounds, f) == Chosen(pass, exits, bounds[0], bounds[f], bounds[0])
    decreases k - f
  {
    if f < k {
      var before := Chosen(pass, exits, bounds[0], bounds[k - 1], bounds[0]);
      ChosenSplits(pass, exits, bounds[0], bounds[k - 1], bounds[k], bounds[0]);
      SplitUnique(Folded(pass, exits, bounds, k - 1),
                  Chosen(pass, exits, bounds[k - 1], bounds[k], bounds[k - 1]),
                  before,
                  Chosen(pass, exits, bounds[k - 1], bounds[k], Released(before, exits, bounds[0])),
                  bounds[k - 1]);
      FoldedPrefix(pass, exits, bounds, f, k - 1);
    }
  }

  /** Nothing is missed at any of the first `k` bounds. */
  ghost predicate NoneMissedBefore(pass: seq<bool>, exits: seq<nat>, bounds: seq<nat>, k: nat)
    requires k < |bounds| && Ascending(bounds) && bounds[k] <= |pass| && bounds[k] <= |exits|
  {
    forall f :: 0 <= f < k ==> NoneMissed(pass, exits, Folded(pass, exits, bounds, f), bounds[f], bounds[f + 1])
  }

  /** Folds that each start over choose what the uncut loop chooses exactly when, at every bound, no bar of the
      next fold passes while the last trade of the folds before is still open. */
  lemma {:induction false} FoldedAgreesIff(pass: seq<bool>, exits: seq<nat>, bounds: seq<nat>, k: nat)
    requires k < |bounds| && Ascending(bounds) && bounds[k] <= |pass| && bounds[k] <= |exits|
    ensures Folded(pass, exits, bounds, k) == Chosen(pass, exits, bounds[0], bounds[k], bounds[0])
       <==> NoneMissedBefore(pass, exits, bounds, k)
  {
    hide Chosen, NoneMissed, Ascending, NoneMissedBefore, Folded;
    FoldedStep(pass, exits, bounds, k);
    if k == 0 {
      NothingChosen(pass, exits, bounds[0]);
    } else {
      BoundsStep(bounds, k);
      var whole := Chosen(pass, exits, bounds[0], bounds[k], bounds[0]);
      FoldedAgreesIff(pass, exits, bounds, k - 1);
      RestartAgreesIff(pass, exits, bounds[0], bounds[k - 1], bounds[k]);
      if Folded(pass, exits, bounds, k) == whole {
        FoldedPrefix(pass, exits, bounds, k - 1, k);
      }
    }
  }

  lemma FoldedStep(pass: seq<bool>, exits: seq<nat>, bounds: seq<nat>, k: nat)
    requires k < |bounds| && Ascending(bounds) && bounds[k] <= |pass| && bounds[k] <= |exits|
    ensures k == 0 ==> Folded(pass, exits, bounds, k) == [] && NoneMissedBefore(pass, exits, bounds, k)
    ensures k > 0 ==>
              && bounds[k - 1] <= bounds[k]
              && Folded(pass, exits, bounds, k)
              == Folded(pass, exits, bounds, k - 1) + Chosen(pass, exits, bounds[k - 1], bounds[k], bounds[k - 1])
    ensures k > 0 ==>
              (NoneMissedBefore(pass, exits, bounds, k) <==>
                && NoneMissedBefore(pass, exits, bounds, k - 1)
                && NoneMissed(pass, exits, Folded(pass, exits, bounds, k - 1), bounds[k - 1], bounds[k]))
  {
    hide Chosen, NoneMissed, NoneMissedBefore;
    if k == 0 {
      NoneMissedAtFirst(pass, exits, bounds);
    } else {
      BoundsStep(bounds, k);
      NoneMissedStep(pass, exits, bounds, k);
    }
  }

  lemma NoneMissedAtFirst(pass: seq<bool>, exits: seq<nat>, bounds: seq<nat>)
    requires 0 < |bounds| && Ascending(bounds) && bounds[0] <= |pass| && bounds[0] <= |exits|
    ensures NoneMissedBefore(pass, exits, bounds, 0)
  {
    hide NoneMissed, Folded, Chosen;
  }

  lemma NoneMissedStep(pass: seq<bool>, exits: seq<nat>, bounds: seq<nat>, k: nat)
    requires 0 < k < |bounds| && Ascending(bounds) && bounds[k] <= |pass| && bounds[k] <= |exits|
    ensures bounds[k - 1] <= bounds[k]
    ensures NoneMissedBefore(pass, exits, bounds, k)
       <==> && NoneMissedBefore(pass, exits, bounds, k - 1)
            && NoneMissed(pass, exits, Folded(pass, exits, bounds, k - 1), bounds[k - 1], bounds[k])
  {
    hide NoneMissed, Folded, Chosen, Ascending;
    BoundsStep(bounds, k);
  }

  lemma BoundsStep(bounds: seq<nat>, k: nat)
    requires Ascending(bounds) && 0 < k < |bounds|
    ensures bounds[0] <= bounds[k - 1] <= bounds[k]
  {
  }

  lemma NothingChosen(pass: seq<bool>, exits: seq<nat>, a: nat)
    requires a <= |pass| && a <= |exits|
    ensures Chosen(pass, exits, a, a, a) == []
  {
  }

  // ---------------------------------------------------------------------------------------------
  // What is known through a bar

  function Through(s: seq<nat>, k: int): seq<nat> {
    if s == [] then [] else (if s[0] <= k then [s[0]] else []) + Through(s[1..], k)
  }

  /** The entries whose exit is at or before `k`. */
  function ExitedThrough(s: seq<nat>, exits: seq<nat>, k: int): seq<nat>
    requires forall j :: 0 <= j < |s| ==> s[j] < |exits|
  {
    if s == [] then [] else (if exits[s[0]] <= k then [s[0]] else []) + ExitedThrough(s[1..], exits, k)
  }

  lemma {:induction false} NothingThrough(s: seq<nat>, exits: seq<nat>, k: int)
    requires ForwardExits(exits) && forall j :: 0 <= j < |s| ==> k < s[j] < |exits|
    ensures Through(s, k) == [] && ExitedThrough(s, exits, k) == []
  {
    if s != [] {
      NothingThrough(s[1..], exits, k);
    }
  }

  /** Two inputs that cannot be told apart at `k`: the same signals through `k`, and exits that agree or
      both lie after `k`. */
  ghost predicate SameThrough(p: seq<bool>, x: seq<nat>, q: seq<bool>, y: seq<nat>, stop: nat, k: int)
    requires stop <= |p| && stop <= |x| && stop <= |q| && stop <= |y|
  {
    forall e :: 0 <= e < stop && e <= k ==> p[e] == q[e] && (x[e] == y[e] || (k < x[e] && k < y[e]))
  }

  /** The choice is causal: entries at or before `k`, and which of them have exited by `k`, depend only on
      what is known through `k`. */
  lemma {:induction false} ChoiceIsCausal(
    p: seq<bool>, x: seq<nat>, q: seq<bool>, y: seq<nat>, i: nat, stop: nat, next: int, k: int)
    requires stop <= |p| && stop <= |x| && stop <= |q| && stop <= |y|
    requires ForwardExits(x) && ForwardExits(y) && SameThrough(p, x, q, y, stop, k)
    ensures var s, t := Chosen(p, x, i, stop, next), Chosen(q, y, i, stop, next);
            Through(s, k) == Through(t, k) && ExitedThrough(s, x, k) == ExitedThrough(t, y, k)
    decreases stop - i
  {
    if k < i {
      NothingThrough(Chosen(p, x, i, stop, next), x, k);
      NothingThrough(Chosen(q, y, i, stop, next), y, k);
    } else if i < stop {
      if i >= next && p[i] {
        var s, t := Chosen(p, x, i + 1, stop, x[i]), Chosen(q, y, i + 1, stop, y[i]);
        HeadThrough(i, s, x, k);
        HeadThrough(i, t, y, k);
        if x[i] == y[i] {
          ChoiceIsCausal(p, x, q, y, i + 1, stop, x[i], k);
        } else {
          NothingThrough(s, x, k);
          NothingThrough(t, y, k);
        }
      } else {
        ChoiceIsCausal(p, x, q, y, i + 1, stop, next, k);
      }
    }
  }

  lemma HeadThrough(i: nat, rest: seq<nat>, exits: seq<nat>, k: int)
    requires i < |exits| && forall j :: 0 <= j < |rest| ==> rest[j] < |exits|
    ensures Through([i] + rest, k) == (if i <= k then [i] else []) + Through(rest, k)
    ensures ExitedThrough([i] + rest, exits, k)
         == (if exits[i] <= k then [i] else []) + ExitedThrough(rest, exits, k)
  {
    assert ([i] + rest)[1..] == rest;
  }

  // ---------------------------------------------------------------------------------------------
  // Restarting at fold boundaries

  function Count(pass: seq<bool>, hold: nat, a: nat, b: nat): nat
    requires b <= |pass|
  {
    |Entries(pass, hold, a, b, a)|
  }

  lemma RivalConcat(pass: seq<bool>, hold: nat, a: int, stop: nat, r: seq<nat>, s: seq<nat>)
    requires stop <= |pass| && IsRival(pass, hold, a, stop, r) && IsRival(pass, hold, a, stop, s)
    requires forall j, k :: 0 <= j < |r| && 0 <= k < |s| ==> r[j] < s[k] && r[j] + hold <= s[k]
    ensures IsRival(pass, hold, a, stop, r + s)
  {
  }

  /** Any choice over `[a, b)` splits at `m` into a choice on each side. */
  lemma {:induction false} RivalSplits(pass: seq<bool>, hold: nat, a: int, m: nat, b: nat, r: seq<nat>)
      returns (k: nat)
    requires a <= m <= b <= |pass| && IsRival(pass, hold, a, b, r)
    ensures k <= |r|
    ensures IsRival(pass, hold, a, m, r[..k]) && IsRival(pass, hold, m, b, r[k..])
  {
    k := 0;
    while k < |r| && r[k] < m
      invariant 0 <= k <= |r|
      invariant forall j :: 0 <= j < k ==> r[j] < m
    {
      k := k + 1;
    }
  }

  /** Restarting the loop at `m` gains at most one entry and loses none. */
  lemma RestartGainsAtMostOne(pass: seq<bool>, hold: nat, a: nat, m: nat, b: nat)
    requires a <= m <= b <= |pass|
    ensures Count(pass, hold, a, b) <= Count(pass, hold, a, m) + Count(pass, hold, m, b)
                                    <= Count(pass, hold, a, b) + 1
  {
    var whole, left, right := Entries(pass, hold, a, b, a), Entries(pass, hold, a, m, a), Entries(pass, hold, m, b, m);
    GreedyIsRival(pass, hold, a, b, a);
    GreedyIsRival(pass, hold, a, m, a);
    GreedyIsRival(pass, hold, m, b, m);
    var k := RivalSplits(pass, hold, a, m, b, whole);
    GreedyStaysAhead(pass, hold, a, m, a, whole[..k]);
    GreedyStaysAhead(pass, hold, m, b, m, whole[k..]);
    if right != [] {
      var tail := right[1..];
      forall j, k | 0 <= j < |left| && 0 <= k < |tail| ensures left[j] < tail[k] && left[j] + hold <= tail[k] {
        assert tail[k] == right[k + 1] && right[0] + hold <= right[k + 1];
      }
      RivalConcat(pass, hold, a, b, left, tail);
      GreedyStaysAhead(pass, hold, a, b, a, left + tail);
    } else {
      GreedyStaysAhead(pass, hold, a, b, a, left);
    }
  }

  /** The start of fold `f` of `k` over `n` candles. */
  function FoldStart(n: nat, k: nat, f: nat): nat
    requires k > 0
  {
    n * f / k
  }

  function Clamp(x: int, lo: int, hi: int): int {
    MaxInt(lo, MinInt(hi, x))
  }

  lemma FoldStartsIncrease(n: nat, k: nat, f: nat)
    requires k > 0
    ensures FoldStart(n, k, 0) == 0 && FoldStart(n, k, k) == n
    ensures FoldStart(n, k, f) <= FoldStart(n, k, f + 1)
  {
    assert n * (f + 1) == n * f + n;
    DivMonotone(n * f, n * (f + 1), k);
    DivExact(n, k);
    assert n * 0 == 0;
  }

  /** A fold starts at the first candle of its share: at the whole number of candles in `f` of `k` equal parts. */
  lemma FoldStartIsShare(n: nat, k: nat, f: nat)
    requires k > 0
    ensures k * FoldStart(n, k, f) <= n * f < k * (FoldStart(n, k, f) + 1)
  {
    assert n * f == k * (n * f / k) + n * f % k;
  }

  lemma MulMonotone(k: nat, a: int, b: int)
    requires a <= b
    ensures k * a <= k * b
  {
    assert k * (b - a) >= 0;
  }

  lemma MulCancels(k: nat, a: int, b: int)
    requires k * a < k * b
    ensures a < b
  {
    if b <= a {
      MulMonotone(k, b, a);
    }
  }

  /** Integer division is the largest multiplier that fits. */
  lemma DivBound(y: nat, k: nat, q: int)
    requires k > 0 && k * q <= y
    ensures q <= y / k
  {
    assert y == k * (y / k) + y % k;
    assert k * (y / k + 1) == k * (y / k) + k;
    MulCancels(k, q, y / k + 1);
  }

  lemma DivMonotone(x: nat, y: nat, k: nat)
    requires k > 0 && x <= y
    ensures x / k <= y / k
  {
    assert x == k * (x / k) + x % k;
    DivBound(y, k, x / k);
  }

  lemma DivExact(n: nat, k: nat)
    requires k > 0
    ensures n * k / k == n
  {
    var y := n * k;
    assert y == k * n;
    DivBound(y, k, n);
    assert y == k * (y / k) + y % k;
    assert k * (n + 1) == k * n + k;
    MulCancels(k, y / k, n + 1);
  }

  function Sum(counts: seq<nat>): nat {
    if counts == [] then 0 else Sum(counts[..|counts| - 1]) + counts[|counts| - 1]
  }

  /** The entries of each of `k` folds over `n` candles, each simulated from scratch on its own range. */
  function FoldCounts(pass: seq<bool>, hold: nat, first: nat, stop: nat, n: nat, k: nat): seq<nat>
    requires k > 0 && first <= stop <= |pass|
  {
    seq(k, f requires 0 <= f < k =>
      Count(pass, hold, Clamp(FoldStart(n, k, f), first, stop), Clamp(FoldStart(n, k, f + 1), first, stop)))
  }

  lemma {:induction false} FoldsFollow(pass: seq<bool>, hold: nat, first: nat, stop: nat, n: nat, k: nat, f: nat)
    requires k > 0 && first <= stop <= |pass| && 0 < f <= k
    ensures var whole := Count(pass, hold, first, Clamp(FoldStart(n, k, f), first, stop));
            whole <= Sum(FoldCounts(pass, hold, first, stop, n, k)[..f]) <= whole + (f - 1)
  {
    FoldStartsIncrease(n, k, f - 1);
    var m, b := Clamp(FoldStart(n, k, f - 1), first, stop), Clamp(FoldStart(n, k, f), first, stop);
    var counts := FoldCounts(pass, hold, first, stop, n, k);
    assert counts[..f][..f - 1] == counts[..f - 1];
    assert counts[f - 1] == Count(pass, hold, m, b);
    if f > 1 {
      FoldsFollow(pass, hold, first, stop, n, k, f - 1);
      RestartGainsAtMostOne(pass, hold, first, m, b);
    }
  }

  /** Walk-forward by index: the `k` folds, restarted at each boundary, together hold at least as many
      entries as the uncut simulation, and at most one more per boundary. */
  lemma FoldsNearlyPartition(pass: seq<bool>, hold: nat, first: nat, stop: nat, n: nat, k: nat)
    requires k > 0 && first <= stop <= |pass| && stop <= n
    ensures Count(pass, hold, first, stop)
         <= Sum(FoldCounts(pass, hold, first, stop, n, k))
         <= Count(pass, hold, first, stop) + (k - 1)
  {
    FoldStartsIncrease(n, k, k);
    FoldsFollow(pass, hold, first, stop, n, k, k);
    var counts := FoldCounts(pass, hold, first, stop, n, k);
    assert counts[..k] == counts;
  }
}
