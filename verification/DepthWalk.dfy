/** Walking an order book side: how much notional and size an order of a given notional consumes, and how its
    average price behaves. */
module DepthWalk {
  import opened Basics
  import opened RealArithmetic

  datatype Level = Level(price: Pos, size: Pos)

  /** What an order has consumed so far. */
  datatype Fill = Fill(notional: real, size: real)

  datatype Side = Ask | Bid

  /** `a` is at least as good as `b` for the taker of that side. */
  predicate AsGood(side: Side, a: real, b: real) {
    if side.Ask? then a <= b else a >= b
  }

  function Notional(l: Level): real {
    l.price * l.size
  }

  /** The size bought or sold for a notional at a price. */
  function SizeOf(notional: real, price: Pos): real {
    notional / price
  }

  function Used(l: Level, required: real): real {
    if required <= 0.0 then 0.0 else Min(Notional(l), required)
  }

  function Plus(a: Fill, b: Fill): Fill {
    Fill(a.notional + b.notional, a.size + b.size)
  }

  /** Level by level, until the required notional is reached. */
  function Walk(levels: seq<Level>, required: real): Fill {
    if levels == [] || required <= 0.0 then Fill(0.0, 0.0)
    else
      var used := Used(levels[0], required);
      Plus(Fill(used, SizeOf(used, levels[0].price)), Walk(levels[1..], required - used))
  }

  function Total(levels: seq<Level>): real {
    if levels == [] then 0.0 else Notional(levels[0]) + Total(levels[1..])
  }

  function Average(f: Fill): Option<real> {
    if f.size > 0.0 then Some(f.notional / f.size) else None
  }

  datatype Depth = Depth(averagePrice: Option<real>, available: Option<real>, covers: bool)

  function DepthOf(levels: seq<Level>, required: real): Depth {
    Depth(Average(Walk(levels, required)),
          if levels == [] then None else Some(Total(levels)),
          Total(levels) >= required)
  }

  // ---------------------------------------------------------------------------------------------
  // Arithmetic

  lemma NotionalPositive(l: Level)
    ensures Notional(l) > 0.0
  {
    Products(l.price, l.size);
  }

  lemma SizeTimesPrice(u: real, price: Pos)
    ensures Times(price, SizeOf(u, price)) == u
  {
  }

  lemma SizeSign(u: real, price: Pos)
    ensures SizeOf(u, price) >= 0.0 <==> u >= 0.0
    ensures SizeOf(u, price) == 0.0 <==> u == 0.0
  {
  }

  lemma SizesSubtract(u: real, v: real, price: Pos)
    ensures SizeOf(u - v, price) == SizeOf(u, price) - SizeOf(v, price)
  {
  }

  /** The size of a part of a level costs that part's notional; at a lower price it would cost less. */
  lemma PartPrice(side: Side, u: real, price: Pos, p: real)
    requires u >= 0.0 && AsGood(side, p, price)
    ensures AsGood(side, Times(p, SizeOf(u, price)), u)
  {
    hide Times, SizeOf;
    var s := SizeOf(u, price);
    SizeTimesPrice(u, price);
    SizeSign(u, price);
    TimesCommutes(p, s);
    TimesCommutes(price, s);
    if side.Ask? {
      TimesAtLeast(s, price, p);
    } else {
      TimesAtLeast(s, p, price);
    }
  }

  // ---------------------------------------------------------------------------------------------
  // How much is consumed

  lemma UsedIsSmaller(l: Level, r: real)
    ensures 0.0 <= Used(l, r) <= Max(r, 0.0) && Used(l, r) <= Notional(l)
    ensures r > 0.0 ==> Used(l, r) > 0.0
    ensures Used(l, r) == Min(Max(r, 0.0), Notional(l))
  {
    NotionalPositive(l);
  }

  lemma {:induction false} TotalNonNegative(levels: seq<Level>)
    ensures Total(levels) >= 0.0 && (levels != [] ==> Total(levels) > 0.0)
  {
    if levels != [] {
      NotionalPositive(levels[0]);
      TotalNonNegative(levels[1..]);
    }
  }

  /** One level at a time, whatever the requirement. */
  lemma WalkStep(levels: seq<Level>, r: real)
    requires levels != []
    ensures var u := Used(levels[0], r);
            Walk(levels, r) == Plus(Fill(u, SizeOf(u, levels[0].price)), Walk(levels[1..], r - u))
  {
  }

  /** The walk consumes the smaller of what is required and what is there. */
  lemma {:induction false} WalkConsumes(levels: seq<Level>, required: real)
    ensures Walk(levels, required).notional == Min(Max(required, 0.0), Total(levels))
    ensures Walk(levels, required).size >= 0.0
    ensures Walk(levels, required).size > 0.0 <==> required > 0.0 && levels != []
  {
    hide Used, Notional, SizeOf;
    TotalNonNegative(levels);
    if levels != [] && required > 0.0 {
      UsedIsSmaller(levels[0], required);
      var used := Used(levels[0], required);
      TotalNonNegative(levels[1..]);
      WalkConsumes(levels[1..], required - used);
      SizeSign(used, levels[0].price);
    }
  }

  /** One pass of the loop over the levels. */
  lemma WalkContinues(levels: seq<Level>, required: real, i: nat, f: Fill)
    requires i < |levels| && f.notional < required
    requires Walk(levels, required) == Plus(f, Walk(levels[i..], required - f.notional))
    ensures var used := Min(Notional(levels[i]), required - f.notional);
            var next := Fill(f.notional + used, f.size + SizeOf(used, levels[i].price));
            Walk(levels, required) == Plus(next, Walk(levels[i + 1..], required - next.notional))
  {
    hide Used, Notional, SizeOf, Walk;
    UsedHere(levels[i], required - f.notional);
    WalkStep(levels[i..], required - f.notional);
    assert levels[i..][1..] == levels[i + 1..];
  }

  lemma WalkStarts(levels: seq<Level>, required: real)
    ensures Walk(levels, required) == Plus(Fill(0.0, 0.0), Walk(levels[0..], required - 0.0))
  {
    hide Walk;
    assert levels[0..] == levels;
  }

  /** When the loop stops it has walked as far as it goes, and covers the requirement iff the total does. */
  lemma WalkEnds(levels: seq<Level>, required: real, i: nat, f: Fill)
    requires i <= |levels| && (i == |levels| || f.notional >= required)
    requires Walk(levels, required) == Plus(f, Walk(levels[i..], required - f.notional))
    ensures f == Walk(levels, required)
    ensures f.notional >= required <==> Total(levels) >= required
  {
    hide Walk, Total;
    EmptyWalk(levels[i..], required - f.notional);
    WalkConsumes(levels, required);
    TotalNonNegative(levels);
  }

  /** `executableDepth`: the loop computes the walk, and coverage is a test of the total depth. */
  method ExecutableDepth(levels: seq<Level>, required: real) returns (depth: Depth)
    ensures depth == DepthOf(levels, required)
  {
    hide Used, Notional, SizeOf, Walk, Total, Average, Plus;
    var totalNotional, totalSize := 0.0, 0.0;
    var i := 0;
    WalkStarts(levels, required);
    while i < |levels| && totalNotional < required
      invariant i <= |levels|
      invariant Walk(levels, required)
             == Plus(Fill(totalNotional, totalSize), Walk(levels[i..], required - totalNotional))
    {
      WalkContinues(levels, required, i, Fill(totalNotional, totalSize));
      var used := Min(Notional(levels[i]), required - totalNotional);
      totalNotional := totalNotional + used;
      totalSize := totalSize + SizeOf(used, levels[i].price);
      i := i + 1;
    }
    WalkEnds(levels, required, i, Fill(totalNotional, totalSize));
    var available := Available(levels);
    depth := Depth(Average(Fill(totalNotional, totalSize)), available, totalNotional >= required);
  }

  lemma UsedHere(l: Level, r: real)
    requires r > 0.0
    ensures Used(l, r) == Min(Notional(l), r)
  {
  }

  method Available(levels: seq<Level>) returns (available: Option<real>)
    ensures available == if levels == [] then None else Some(Total(levels))
  {
    hide Notional;
    var sum := 0.0;
    for i := 0 to |levels|
      invariant Total(levels) == sum + Total(levels[i..])
    {
      assert levels[i..][1..] == levels[i + 1..];
      sum := sum + Notional(levels[i]);
    }
    available := if levels == [] then None else Some(sum);
  }

  // ---------------------------------------------------------------------------------------------
  // A walk is a purchase, level by level

  function Size(xs: seq<real>): real {
    if xs == [] then 0.0 else xs[0] + Size(xs[1..])
  }

  function Cost(levels: seq<Level>, xs: seq<real>): real
    requires |xs| == |levels|
  {
    if xs == [] then 0.0 else levels[0].price * xs[0] + Cost(levels[1..], xs[1..])
  }

  function Sizes(levels: seq<Level>): (xs: seq<real>)
    ensures |xs| == |levels|
  {
    seq(|levels|, i requires 0 <= i < |levels| => levels[i].size)
  }

  /** `xs[i]` units are traded at level `i`: never more than it has, and only where all levels before are used up. */
  ghost predicate IsPurchase(levels: seq<Level>, xs: seq<real>) {
    && |xs| == |levels|
    && (forall i :: 0 <= i < |xs| ==> 0.0 <= xs[i] <= levels[i].size)
    && (forall i, j :: 0 <= i < j < |xs| && xs[j] > 0.0 ==> xs[i] == levels[i].size)
  }

  lemma {:induction false} TotalIsCost(levels: seq<Level>)
    ensures Total(levels) == Cost(levels, Sizes(levels))
  {
    if levels != [] {
      TotalIsCost(levels[1..]);
      assert Sizes(levels)[1..] == Sizes(levels[1..]);
    }
  }

  lemma UsedUnits(l: Level, required: real) returns (x: real)
    ensures x == SizeOf(Used(l, required), l.price) && 0.0 <= x <= l.size && l.price * x == Used(l, required)
    ensures required > l.price * l.size ==> x == l.size
  {
    UsedIsSmaller(l, required);
    var used := Used(l, required);
    x := SizeOf(used, l.price);
    SizeTimesPrice(used, l.price);
    SizeSign(used, l.price);
    CancelFactor(l.price, x, l.size);
    CancelFactor(l.price, l.size, x);
  }

  lemma {:induction false} NothingCosts(levels: seq<Level>, xs: seq<real>)
    requires |xs| == |levels| && forall i :: 0 <= i < |xs| ==> xs[i] == 0.0
    ensures Size(xs) == 0.0 && Cost(levels, xs) == 0.0
  {
    if xs != [] {
      NothingCosts(levels[1..], xs[1..]);
    }
  }

  /** A walk is the purchase of the units it traded level by level, for at most the requirement; nothing is left unless
      the requirement is met exactly. */
  lemma {:induction false} WalkIsPurchase(levels: seq<Level>, required: real) returns (xs: seq<real>)
    ensures IsPurchase(levels, xs)
    ensures Walk(levels, required) == Fill(Cost(levels, xs), Size(xs))
    ensures Cost(levels, xs) == Max(required, 0.0) || (Cost(levels, xs) < required && xs == Sizes(levels))
    ensures required <= 0.0 ==> forall i :: 0 <= i < |xs| ==> xs[i] == 0.0
  {
    hide Used, SizeOf, Notional, IsPurchase, Size, Cost, Sizes;
    if levels == [] {
      xs := [];
      NothingPurchased();
    } else if required <= 0.0 {
      xs := seq(|levels|, i => 0.0);
      NothingCosts(levels, xs);
      ZeroIsPurchase(levels, xs);
    } else {
      var x := UsedUnits(levels[0], required);
      var used := Used(levels[0], required);
      UsedHere(levels[0], required);
      NotionalIsProduct(levels[0]);
      var rest := WalkIsPurchase(levels[1..], required - used);
      xs := [x] + rest;
      PurchaseGrows(levels, x, rest, required - used);
      PurchaseAdds(levels, x, rest);
      WalkStep(levels, required);
    }
  }

  lemma NothingPurchased()
    ensures IsPurchase([], []) && Cost([], []) == Size([]) == 0.0 && Sizes([]) == []
  {
  }

  lemma ZeroIsPurchase(levels: seq<Level>, xs: seq<real>)
    requires |xs| == |levels| && forall i :: 0 <= i < |xs| ==> xs[i] == 0.0
    ensures IsPurchase(levels, xs)
  {
  }

  lemma PurchaseAdds(levels: seq<Level>, x: real, rest: seq<real>)
    requires levels != [] && |rest| == |levels| - 1
    ensures Cost(levels, [x] + rest) == levels[0].price * x + Cost(levels[1..], rest)
    ensures Size([x] + rest) == x + Size(rest)
    ensures x == levels[0].size && rest == Sizes(levels[1..]) ==> [x] + rest == Sizes(levels)
  {
    assert ([x] + rest)[1..] == rest;
  }

  lemma NotionalIsProduct(l: Level)
    ensures Notional(l) == l.price * l.size
  {
  }

  lemma PurchaseGrows(levels: seq<Level>, x: real, rest: seq<real>, left: real)
    requires levels != [] && IsPurchase(levels[1..], rest) && 0.0 <= x <= levels[0].size
    requires left > 0.0 ==> x == levels[0].size
    requires left <= 0.0 ==> forall i :: 0 <= i < |rest| ==> rest[i] == 0.0
    ensures IsPurchase(levels, [x] + rest)
  {
    var xs := [x] + rest;
    forall i | 0 <= i < |rest| ensures xs[i + 1] == rest[i] && levels[i + 1] == levels[1..][i] {
    }
  }

  // ---------------------------------------------------------------------------------------------
  // What it costs

  /** The levels are listed from the best price on. */
  ghost predicate BestFirst(side: Side, levels: seq<Level>) {
    forall j, k :: 0 <= j < k < |levels| ==> AsGood(side, levels[j].price, levels[k].price)
  }

  /** No level is better than `p`. */
  ghost predicate NoBetterThan(side: Side, p: real, levels: seq<Level>) {
    forall k :: 0 <= k < |levels| ==> AsGood(side, p, levels[k].price)
  }

  lemma TailNoBetter(side: Side, levels: seq<Level>)
    requires BestFirst(side, levels) && levels != []
    ensures BestFirst(side, levels[1..]) && NoBetterThan(side, levels[0].price, levels[1..])
  {
  }

  /** Raising the requirement buys every extra unit at `p` or worse, when no level is better than `p`. */
  lemma {:induction false} ExtraUnitsCost(side: Side, p: real, levels: seq<Level>, r1: real, r2: real)
    requires NoBetterThan(side, p, levels) && r1 <= r2
    ensures var w1, w2 := Walk(levels, r1), Walk(levels, r2);
            w1.size <= w2.size && AsGood(side, Times(p, w2.size - w1.size), w2.notional - w1.notional)
  {
    hide Used, Walk, Times, SizeOf, NoBetterThan;
    if levels == [] {
      EmptyWalk(levels, r1);
      EmptyWalk(levels, r2);
      TimesZero(p);
    } else {
      var l := levels[0];
      WalkStep(levels, r1);
      WalkStep(levels, r2);
      UsedGrows(l, r1, r2);
      NoneBetter(side, p, levels);
      var u1, u2 := Used(l, r1), Used(l, r2);
      ExtraUnitsCost(side, p, levels[1..], r1 - u1, r2 - u2);
      PartPrice(side, u2 - u1, l.price, p);
      SizeSign(u2 - u1, l.price);
      SizesSubtract(u2, u1, l.price);
      TimesSum(p, SizeOf(u2 - u1, l.price), Walk(levels[1..], r2 - u2).size - Walk(levels[1..], r1 - u1).size);
    }
  }

  lemma NoneBetter(side: Side, p: real, levels: seq<Level>)
    requires NoBetterThan(side, p, levels) && levels != []
    ensures AsGood(side, p, levels[0].price) && NoBetterThan(side, p, levels[1..])
  {
  }

  lemma EmptyWalk(levels: seq<Level>, r: real)
    requires levels == [] || r <= 0.0
    ensures Walk(levels, r) == Fill(0.0, 0.0)
  {
  }

  lemma UsedGrows(l: Level, r1: real, r2: real)
    requires r1 <= r2
    ensures Used(l, r1) <= Used(l, r2) && r1 - Used(l, r1) <= r2 - Used(l, r2)
  {
    NotionalPositive(l);
  }

  /** The average price is no better than the best level. */
  lemma AverageNoBetter(side: Side, p: real, levels: seq<Level>, required: real)
    requires NoBetterThan(side, p, levels)
    ensures AsGood(side, Times(p, Walk(levels, required).size), Walk(levels, required).notional)
    ensures var average := Average(Walk(levels, required));
            average.Some? ==> AsGood(side, p, average.value)
  {
    hide Walk, Times, NoBetterThan;
    var zero := if required <= 0.0 then required else 0.0;
    ExtraUnitsCost(side, p, levels, zero, required);
    EmptyWalk(levels, zero);
    var w := Walk(levels, required);
    if w.size > 0.0 {
      CompareAverage(side, p, w.notional, w.size);
    }
  }

  lemma CompareAverage(side: Side, p: real, n: real, s: Pos)
    requires AsGood(side, Times(p, s), n)
    ensures AsGood(side, p, n / s)
  {
    hide Times;
    var a := n / s;
    SizeTimesPrice(n, s);
    TimesCommutes(p, s);
    CancelFactor(s, p, a);
    CancelFactor(s, a, p);
  }

  /** Cross-multiplied form of the monotone average, by induction over the levels. */
  lemma {:induction false} CrossMonotone(side: Side, levels: seq<Level>, r1: real, r2: real)
    requires BestFirst(side, levels) && r1 <= r2
    ensures var w1, w2 := Walk(levels, r1), Walk(levels, r2);
            AsGood(side, Times(w1.notional, w2.size), Times(w2.notional, w1.size))
  {
    hide Used, Walk, BestFirst, NoBetterThan, Times, SizeOf;
    if levels == [] || r1 <= 0.0 {
      EmptyWalk(levels, r1);
      TimesZero(Walk(levels, r2).size);
      TimesZero(Walk(levels, r2).notional);
    } else {
      var l := levels[0];
      WalkStep(levels, r1);
      WalkStep(levels, r2);
      var u1, u2 := Used(l, r1), Used(l, r2);
      UsedIsSmaller(l, r1);
      if u1 == u2 {
        TailNoBetter(side, levels);
        CrossMonotone(side, levels[1..], r1 - u1, r2 - u2);
        ExtraUnitsCost(side, l.price, levels[1..], r1 - u1, r2 - u2);
        SameHead(side, l.price, u1, Walk(levels[1..], r1 - u1), Walk(levels[1..], r2 - u2));
      } else {
        SingleLevel(l, r1, r2);
        EmptyWalk(levels[1..], r1 - u1);
        HeadIsBest(side, levels);
        AverageNoBetter(side, l.price, levels, r2);
        OnlyHead(side, l.price, u1, Walk(levels, r2));
      }
    }
  }

  lemma HeadIsBest(side: Side, levels: seq<Level>)
    requires BestFirst(side, levels) && levels != []
    ensures NoBetterThan(side, levels[0].price, levels)
  {
  }

  lemma SingleLevel(l: Level, r1: real, r2: real)
    requires 0.0 < r1 <= r2 && Used(l, r1) != Used(l, r2)
    ensures Used(l, r1) == r1
  {
  }

  lemma OnlyHead(side: Side, price: Pos, u: real, w: Fill)
    requires u >= 0.0 && AsGood(side, Times(price, w.size), w.notional)
    ensures AsGood(side, Times(u, w.size), Times(w.notional, SizeOf(u, price)))
  {
    hide Times, SizeOf;
    var s := SizeOf(u, price);
    SizeTimesPrice(u, price);
    SizeSign(u, price);
    TimesCommutes(price, s);
    TimesAssociates(s, price, w.size);
    TimesCommutes(w.notional, s);
    if side.Ask? {
      TimesAtLeast(s, w.notional, Times(price, w.size));
    } else {
      TimesAtLeast(s, Times(price, w.size), w.notional);
    }
  }

  /** Adding the same head, no worse than the rest, to both walks keeps the order of their averages. */
  lemma SameHead(side: Side, price: Pos, u: real, v1: Fill, v2: Fill)
    requires u >= 0.0
    requires AsGood(side, Times(v1.notional, v2.size), Times(v2.notional, v1.size))
    requires AsGood(side, Times(price, v2.size - v1.size), v2.notional - v1.notional)
    ensures var s := SizeOf(u, price);
            AsGood(side, Times(u + v1.notional, s + v2.size), Times(u + v2.notional, s + v1.size))
  {
    hide Times, SizeOf;
    var s := SizeOf(u, price);
    var n1, n2, s1, s2 := v1.notional, v2.notional, v1.size, v2.size;
    Expand(u, n1, s, s2);
    Expand(u, n2, s, s1);
    OnlyHead(side, price, u, Fill(n2 - n1, s2 - s1));
    TimesSum(u, s2, s1);
    TimesCommutes(n2 - n1, s);
    TimesSum(s, n2, n1);
    TimesCommutes(n1, s);
    TimesCommutes(n2, s);
  }

  lemma Expand(u: real, n: real, s: real, t: real)
    ensures Times(u + n, s + t) == Times(u, s) + Times(u, t) + Times(n, s) + Times(n, t)
  {
  }

  /** The average price never improves with the notional: an ask average does not fall, a bid average does not
      rise. */
  lemma AverageIsMonotone(side: Side, levels: seq<Level>, r1: real, r2: real)
    requires BestFirst(side, levels) && r1 <= r2
    ensures var a1, a2 := Average(Walk(levels, r1)), Average(Walk(levels, r2));
            && (a1.Some? ==> a2.Some?)
            && (a1.Some? ==> AsGood(side, a1.value, a2.value))
  {
    hide Walk, Times;
    var w1, w2 := Walk(levels, r1), Walk(levels, r2);
    WalkConsumes(levels, r1);
    WalkConsumes(levels, r2);
    CrossMonotone(side, levels, r1, r2);
    if w1.size > 0.0 {
      CompareFractions(side, w1, w2);
    }
  }

  lemma CompareFractions(side: Side, a: Fill, b: Fill)
    requires a.size > 0.0 && b.size > 0.0
    requires AsGood(side, Times(a.notional, b.size), Times(b.notional, a.size))
    ensures AsGood(side, a.notional / a.size, b.notional / b.size)
  {
    hide Times;
    var x := a.notional / a.size;
    SizeTimesPrice(a.notional, a.size);
    TimesAssociates(a.size, x, b.size);
    TimesCommutes(b.notional, a.size);
    CancelFactor(a.size, Times(x, b.size), b.notional);
    CancelFactor(a.size, b.notional, Times(x, b.size));
    CompareAverage(side, x, b.notional, b.size);
  }

  // ---------------------------------------------------------------------------------------------
  // Conversion to another currency

  /** A price in another currency. */
  function AtRate(p: Pos, q: Pos): Pos {
    Products(p, q);
    p * q
  }

  lemma AtRateIsProduct(p: Pos, q: Pos)
    ensures AtRate(p, q) == Times(p, q) == Times(q, p)
  {
  }

  function ScaleLevel(l: Level, q: Pos): Level {
    Level(AtRate(l.price, q), l.size)
  }

  function Scale(levels: seq<Level>, q: Pos): (r: seq<Level>)
    ensures |r| == |levels|
    ensures forall k :: 0 <= k < |levels| ==> r[k] == ScaleLevel(levels[k], q)
  {
    if levels == [] then [] else [ScaleLevel(levels[0], q)] + Scale(levels[1..], q)
  }

  lemma UsedScales(l: Level, q: Pos, r: real)
    ensures Used(ScaleLevel(l, q), Times(q, r)) == Times(q, Used(l, r))
    ensures SizeOf(Used(ScaleLevel(l, q), Times(q, r)), ScaleLevel(l, q).price) == SizeOf(Used(l, r), l.price)
  {
    hide Times, SizeOf, Notional, AtRate;
    NotionalScales(l, q);
    CancelFactor(q, Notional(l), r);
    CancelFactor(q, r, 0.0);
    TimesZero(q);
    SizeScales(Used(l, r), l, q);
  }

  lemma NotionalScales(l: Level, q: Pos)
    ensures Notional(ScaleLevel(l, q)) == Times(q, Notional(l))
  {
    AtRateIsProduct(l.price, q);
    TimesAssociates(q, l.price, l.size);
  }

  lemma SizeScales(u: real, l: Level, q: Pos)
    ensures SizeOf(Times(q, u), ScaleLevel(l, q).price) == SizeOf(u, l.price)
  {
    hide Times, SizeOf, AtRate;
    var p := l.price;
    SizeTimesPrice(u, p);
    TimesAssociates(q, p, SizeOf(u, p));
    AtRateIsProduct(p, q);
    Undo(AtRate(p, q), SizeOf(u, p));
  }

  lemma Undo(p: Pos, s: real)
    ensures SizeOf(Times(p, s), p) == s
  {
  }

  /** Scaling every price and the notional by `q` scales what is paid by `q` and leaves the size alone. */
  lemma {:induction false} WalkScales(levels: seq<Level>, q: Pos, r: real)
    ensures Walk(Scale(levels, q), Times(q, r)) == Fill(Times(q, Walk(levels, r).notional), Walk(levels, r).size)
  {
    hide Used, ScaleLevel, Walk, Times, SizeOf;
    if levels == [] {
      EmptyWalk(levels, r);
      EmptyWalk(Scale(levels, q), Times(q, r));
      TimesZero(q);
    } else {
      var u := Used(levels[0], r);
      WalkStep(levels, r);
      WalkStep(Scale(levels, q), Times(q, r));
      UsedScales(levels[0], q, r);
      assert Scale(levels, q)[1..] == Scale(levels[1..], q);
      TimesSum(q, r, u);
      WalkScales(levels[1..], q, r - u);
      TimesSum(q, u, Walk(levels[1..], r - u).notional);
    }
  }

  /** So the average price in the other currency is `q` times the average for the same order. */
  lemma AverageScales(levels: seq<Level>, q: Pos, r: real)
    ensures var a, b := Average(Walk(levels, r)), Average(Walk(Scale(levels, q), Times(q, r)));
            (a.None? <==> b.None?) && (a.Some? ==> b.value == Times(q, a.value))
  {
    hide Walk, Scale, Times;
    WalkScales(levels, q, r);
    var w := Walk(levels, r);
    if w.size > 0.0 {
      QuotientTimes(q, w.notional, w.size);
    }
  }

  lemma QuotientTimes(q: real, n: real, s: Pos)
    ensures Times(q, n) / s == Times(q, n / s)
  {
  }

  // ---------------------------------------------------------------------------------------------
  // Books with unusable levels

  /** A level as it arrives, before any check. */
  datatype Unit = Unit(price: real, size: real)

  predicate Usable(u: Unit) {
    u.price > 0.0 && u.size > 0.0
  }

  function Good(units: seq<Unit>): seq<Level> {
    if units == [] then []
    else (if Usable(units[0]) then [Level(units[0].price, units[0].size)] else []) + Good(units[1..])
  }

  /** The usable levels are those with a positive price and a positive size. */
  lemma {:induction false} GoodAreUsable(units: seq<Unit>, l: Level)
    ensures l in Good(units) <==> exists u :: u in units && u.price == l.price && u.size == l.size
  {
    if units != [] {
      GoodAreUsable(units[1..], l);
      assert units == [units[0]] + units[1..];
    }
  }

  datatype Summary = Summary(levels: nat, notional: real, size: real, worst: Option<Pos>)

  const ZERO := Summary(0, 0.0, 0.0, None)

  /** `depthSummary` on the usable levels: it looks at the first level even when nothing is required. */
  function Summarize(good: seq<Level>, notional: real, s: Summary): Summary {
    if good == [] then s
    else
      var used := Min(notional - s.notional, Notional(good[0]));
      var t := Summary(s.levels + 1, s.notional + used, s.size + SizeOf(used, good[0].price), Some(good[0].price));
      if t.notional >= notional then t else Summarize(good[1..], notional, t)
  }

  lemma GoodStep(units: seq<Unit>, i: nat)
    requires i < |units|
    ensures var rest := Good(units[i + 1..]);
            Good(units[i..]) == if Usable(units[i]) then [Level(units[i].price, units[i].size)] + rest else rest
  {
    assert units[i..][1..] == units[i + 1..];
  }

  lemma GoodNothing()
    ensures Good([]) == []
  {
  }

  method DepthSummary(units: seq<Unit>, notional: real) returns (summary: Summary, covers: bool)
    ensures summary == Summarize(Good(units), notional, ZERO)
    ensures covers <==> summary.notional >= notional
  {
    hide Notional, SizeOf, Good;
    var cumulativeNotional, cumulativeSize := 0.0, 0.0;
    var levels := 0;
    var worst: Option<Pos> := None;
    var i, done := 0, false;
    assert units[0..] == units;
    while i < |units| && !done
      invariant i <= |units| && levels >= 0
      invariant done ==>
          Summarize(Good(units), notional, ZERO) == Summary(levels, cumulativeNotional, cumulativeSize, worst)
      invariant !done ==>
          Summarize(Good(units), notional, ZERO)
            == Summarize(Good(units[i..]), notional, Summary(levels, cumulativeNotional, cumulativeSize, worst))
    {
      GoodStep(units, i);
      if Usable(units[i]) {
        var level := Level(units[i].price, units[i].size);
        var used := Min(notional - cumulativeNotional, Notional(level));
        cumulativeNotional := cumulativeNotional + used;
        cumulativeSize := cumulativeSize + SizeOf(used, level.price);
        levels := levels + 1;
        worst := Some(level.price);
        done := cumulativeNotional >= notional;
      }
      i := i + 1;
    }
    assert !done ==> Good(units[i..]) == [] by {
      assert !done ==> units[i..] == [];
      GoodNothing();
    }
    summary, covers := Summary(levels, cumulativeNotional, cumulativeSize, worst), cumulativeNotional >= notional;
  }

  lemma {:induction false} SummarizeContinues(good: seq<Level>, notional: real, s: Summary)
    requires s.notional < notional
    ensures var t := Summarize(good, notional, s);
            Fill(t.notional, t.size) == Plus(Fill(s.notional, s.size), Walk(good, notional - s.notional))
  {
    hide Notional, SizeOf, Used, Walk;
    if good != [] {
      UsedHere(good[0], notional - s.notional);
      WalkStep(good, notional - s.notional);
      var used := Used(good[0], notional - s.notional);
      var t := Summary(s.levels + 1, s.notional + used, s.size + SizeOf(used, good[0].price), Some(good[0].price));
      if t.notional >= notional {
        EmptyWalk(good[1..], notional - t.notional);
        assert Summarize(good, notional, s) == t;
      } else {
        SummarizeContinues(good[1..], notional, t);
        assert Summarize(good, notional, s) == Summarize(good[1..], notional, t);
      }
    } else {
      EmptyWalk(good, notional - s.notional);
    }
  }

  /** The two walks agree on the usable levels exactly when the notional is not negative or there is no usable
      level; coverage agrees always. */
  lemma SummaryAgreesWithWalk(units: seq<Unit>, notional: real)
    ensures var s, w := Summarize(Good(units), notional, ZERO), Walk(Good(units), notional);
            && (Fill(s.notional, s.size) == w <==> notional >= 0.0 || Good(units) == [])
            && (s.notional >= notional <==> w.notional >= notional)
            && Average(Fill(s.notional, s.size)) == Average(w)
  {
    hide Good, Walk, Summarize;
    var good := Good(units);
    WalkConsumes(good, notional);
    TotalNonNegative(good);
    if notional > 0.0 {
      SummarizeContinues(good, notional, ZERO);
    } else if good != [] {
      EmptyWalk(good, notional);
      NothingRequired(good, notional);
    } else {
      SummarizeNothing(notional);
      EmptyWalk(good, notional);
    }
  }

  lemma SummarizeNothing(notional: real)
    ensures Summarize([], notional, ZERO) == ZERO
  {
  }

  /** With nothing required the summary still uses the first level, by a non-positive amount. */
  lemma NothingRequired(good: seq<Level>, notional: real)
    requires notional <= 0.0 && good != []
    ensures Summarize(good, notional, ZERO)
         == Summary(1, notional, SizeOf(notional, good[0].price), Some(good[0].price))
    ensures SizeOf(notional, good[0].price) <= 0.0
    ensures SizeOf(notional, good[0].price) == 0.0 <==> notional == 0.0
  {
    hide SizeOf;
    NotionalPositive(good[0]);
    SizeSign(notional, good[0].price);
  }

  lemma {:induction false} TotalSnoc(levels: seq<Level>, i: nat)
    requires i < |levels|
    ensures Total(levels[..i + 1]) == Total(levels[..i]) + Notional(levels[i])
  {
    hide Notional;
    if i == 0 {
      assert levels[..1] == [levels[0]];
    } else {
      TotalSnoc(levels[1..], i - 1);
      assert levels[..i + 1][1..] == levels[1..][..i] && levels[..i][1..] == levels[1..][..i - 1];
    }
  }

  /** A summary of some levels stops at the first prefix that covers the notional, looking at one level at
      least, and names the price of the last level it used. */
  ghost predicate StopsAtCover(good: seq<Level>, notional: real, t: Summary) {
    && t.levels <= |good|
    && (t.levels == 0 <==> good == [])
    && t.worst == (if t.levels == 0 then None else Some(good[t.levels - 1].price))
    && (t.levels > 1 ==> Total(good[..t.levels - 1]) < notional)
    && (t.levels < |good| ==> Total(good[..t.levels]) >= notional)
  }

  lemma {:induction false} SummaryContinuesToCover(good: seq<Level>, notional: real, i: nat, s: Summary)
    requires i <= |good| && s.levels == i && s.notional == Total(good[..i])
    requires i > 0 ==> s.notional < notional && s.worst == Some(good[i - 1].price)
    requires i == 0 ==> s.worst == None
    ensures StopsAtCover(good, notional, Summarize(good[i..], notional, s))
    decreases |good| - i
  {
    hide Notional, SizeOf, Total;
    if i == |good| {
      if i > 0 {
        TotalSnoc(good, i - 1);
        NotionalPositive(good[i - 1]);
      }
    } else {
      TotalSnoc(good, i);
      assert good[i..][0] == good[i] && good[i..][1..] == good[i + 1..];
      var used := Min(notional - s.notional, Notional(good[i]));
      var t := Summary(s.levels + 1, s.notional + used, s.size + SizeOf(used, good[i].price), Some(good[i].price));
      if t.notional < notional {
        SummaryContinuesToCover(good, notional, i + 1, t);
      }
    }
  }

  lemma SummaryStopsAtCover(good: seq<Level>, notional: real)
    ensures StopsAtCover(good, notional, Summarize(good, notional, ZERO))
  {
    SummaryContinuesToCover(good, notional, 0, ZERO);
    assert good[0..] == good;
  }
}
