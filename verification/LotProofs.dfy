/** Conservation, FIFO order and the excursions of lots over any sequence of fills and marks. */
module LotProofs {
  import opened Basics
  import opened RealArithmetic
  import opened LotSpec

  // ---------------------------------------------------------------------------------------------
  // Sums

  function Sum<T>(f: T -> real, xs: seq<T>): real {
    if xs == [] then 0.0 else f(xs[0]) + Sum(f, xs[1..])
  }

  lemma {:induction false} SumConcat<T>(f: T -> real, xs: seq<T>, ys: seq<T>)
    ensures Sum(f, xs + ys) == Sum(f, xs) + Sum(f, ys)
  {
    if xs == [] {
      assert xs + ys == ys;
    } else {
      assert (xs + ys)[0] == xs[0] && (xs + ys)[1..] == xs[1..] + ys;
      SumConcat(f, xs[1..], ys);
    }
  }

  lemma SumSnoc<T>(f: T -> real, xs: seq<T>, x: T)
    ensures Sum(f, xs + [x]) == Sum(f, xs) + f(x)
  {
    SumConcat(f, xs, [x]);
    assert [x][1..] == [];
    assert Sum(f, [x]) == f(x) + Sum(f, []);
  }

  function LotQuantity(l: Lot): real { l.quantity }

  function LotCost(l: Lot): real { l.costKrw }

  function LotEntryQuote(l: Lot): real { l.entryQuoteKrw }

  function ClosedQuantity(c: Closed): real { c.quantity }

  function ClosedCost(c: Closed): real { c.costKrw }

  function ClosedEntryQuote(c: Closed): real { c.entryQuoteKrw }

  function SoldQuote(c: Closed): real { c.soldQuoteKrw }

  function SoldFee(c: Closed): real { c.soldFeeKrw }

  function Realized(c: Closed): real { c.realizedKrw }

  // ---------------------------------------------------------------------------------------------
  // Conservation

  /** An amount carried by open lots, closed trades and dust together. */
  function Carried(book: Book, ofLot: Lot -> real, ofClosed: Closed -> real): real {
    Sum(ofLot, book.lots) + Sum(ofClosed, book.closed) + Sum(ofLot, book.retired)
  }

  function Bought(events: seq<Event>, amount: Fill -> real): real {
    if events == [] then 0.0
    else
      var last := events[|events| - 1];
      Bought(events[..|events| - 1], amount)
      + (if last.Trade? && last.fill.side.BuySide? then amount(last.fill) else 0.0)
  }

  function FillQuantity(f: Fill): real { f.quantity }

  function FillCost(f: Fill): real { f.quoteKrw + f.feeKrw }

  function FillQuote(f: Fill): real { f.quoteKrw }

  /** An amount a partial close splits exactly and a mark leaves alone. */
  ghost predicate Splits(ofLot: Lot -> real, ofClosed: Closed -> real) {
    && (forall lot, fill, remaining :: var c := ClosePart(lot, fill, remaining);
          ofClosed(c) + ofLot(Rest(lot, c)) == ofLot(lot))
    && (forall lot, market, bid :: ofLot(Marked(lot, market, bid)) == ofLot(lot))
  }

  lemma AmountsSplit()
    ensures Splits(LotQuantity, ClosedQuantity)
    ensures Splits(LotCost, ClosedCost)
    ensures Splits(LotEntryQuote, ClosedEntryQuote)
  {
  }

  lemma MatchHeadConserves(book: Book, fill: Fill, remaining: real, ofLot: Lot -> real, ofClosed: Closed -> real)
    requires Splits(ofLot, ofClosed) && Matches(book, fill, remaining)
    ensures Carried(MatchHead(book, fill, remaining), ofLot, ofClosed) == Carried(book, ofLot, ofClosed)
  {
    var lot := book.lots[0];
    var c := ClosePart(lot, fill, remaining);
    var rest := Rest(lot, c);
    assert ofClosed(c) + ofLot(rest) == ofLot(lot);
    SumSnoc(ofClosed, book.closed, c);
    SumSnoc(ofLot, book.retired, rest);
    assert ([rest] + book.lots[1..])[1..] == book.lots[1..];
  }

  lemma {:induction false} MatchSellConserves(
    book: Book, fill: Fill, remaining: real, ofLot: Lot -> real, ofClosed: Closed -> real)
    requires Splits(ofLot, ofClosed)
    ensures Carried(MatchSell(book, fill, remaining).0, ofLot, ofClosed) == Carried(book, ofLot, ofClosed)
    decreases |book.lots|, if remaining > DUST then 1 else 0
  {
    hide Carried, Splits;
    if Matches(book, fill, remaining) {
      MatchHeadConserves(book, fill, remaining, ofLot, ofClosed);
      MatchSellConserves(MatchHead(book, fill, remaining), fill,
                         remaining - Min(book.lots[0].quantity, remaining), ofLot, ofClosed);
    }
  }

  lemma {:induction false} MarkConserves(
    lots: seq<Lot>, market: string, bid: real, ofLot: Lot -> real, ofClosed: Closed -> real)
    requires Splits(ofLot, ofClosed)
    ensures Sum(ofLot, MarkedLots(lots, market, bid)) == Sum(ofLot, lots)
  {
    if lots != [] {
      assert MarkedLots(lots, market, bid)[1..] == MarkedLots(lots[1..], market, bid);
      MarkConserves(lots[1..], market, bid, ofLot, ofClosed);
      assert ofLot(Marked(lots[0], market, bid)) == ofLot(lots[0]);
    }
  }

  lemma {:induction false} Conserves(
    events: seq<Event>, ofLot: Lot -> real, ofClosed: Closed -> real, amount: Fill -> real)
    requires Splits(ofLot, ofClosed)
    requires forall fill, serial :: ofLot(OpenLot(fill, serial)) == amount(fill)
    ensures Carried(BookAfter(events), ofLot, ofClosed) == Bought(events, amount)
  {
    if events != [] {
      var n := |events| - 1;
      Conserves(events[..n], ofLot, ofClosed, amount);
      var book := BookAfter(events[..n]);
      match events[n]
      case Mark(market, bid) => MarkConserves(book.lots, market, bid, ofLot, ofClosed);
      case Trade(fill) =>
        if fill.side.BuySide? {
          SumSnoc(ofLot, book.lots, OpenLot(fill, |book.origins|));
        } else if fill.side.SellSide? {
          MatchSellConserves(book, fill, fill.quantity, ofLot, ofClosed);
        }
    }
  }

  /** Over any fills and marks, the bought quantity, cost and quote each equal what is open plus what was
      closed plus what was retired as dust. */
  lemma Conservation(events: seq<Event>)
    ensures Carried(BookAfter(events), LotQuantity, ClosedQuantity) == Bought(events, FillQuantity)
    ensures Carried(BookAfter(events), LotCost, ClosedCost) == Bought(events, FillCost)
    ensures Carried(BookAfter(events), LotEntryQuote, ClosedEntryQuote) == Bought(events, FillQuote)
  {
    AmountsSplit();
    Conserves(events, LotQuantity, ClosedQuantity, FillQuantity);
    Conserves(events, LotCost, ClosedCost, FillCost);
    Conserves(events, LotEntryQuote, ClosedEntryQuote, FillQuote);
  }

  // ---------------------------------------------------------------------------------------------
  // Excursions: every lot and closed trade is a scaled copy of one per-unit history

  function Unit(o: Origin): real
    requires o.quantity > 0.0
  {
    o.costKrw / o.quantity
  }

  /** `best` is the largest of minus the fee per unit and the first `n` marked bids minus the unit cost. */
  ghost predicate IsBest(o: Origin, n: nat, best: real)
    requires o.quantity > 0.0
  {
    && n <= |o.bids|
    && best >= -o.feeKrw / o.quantity
    && (forall i :: 0 <= i < n ==> best >= o.bids[i] - Unit(o))
    && (best == -o.feeKrw / o.quantity || exists i :: 0 <= i < n && best == o.bids[i] - Unit(o))
  }

  /** The dual for the smallest. */
  ghost predicate IsWorst(o: Origin, n: nat, worst: real)
    requires o.quantity > 0.0
  {
    && n <= |o.bids|
    && worst <= -o.feeKrw / o.quantity
    && (forall i :: 0 <= i < n ==> worst <= o.bids[i] - Unit(o))
    && (worst == -o.feeKrw / o.quantity || exists i :: 0 <= i < n && worst == o.bids[i] - Unit(o))
  }

  /** The amounts are `quantity` times the per-unit amounts of `o` after `n` marks, and the basis-point
      extremes are the KRW extremes over the cost. */
  ghost predicate Scaled(
    o: Origin, n: nat, quantity: real, cost: real, entryQuote: real,
    maxKrw: real, minKrw: real, maxBps: real, minBps: real)
  {
    && o.quantity > 0.0
    && quantity > 0.0
    && cost == quantity * Unit(o)
    && entryQuote == quantity * (o.quoteKrw / o.quantity)
    && IsBest(o, n, maxKrw / quantity)
    && IsWorst(o, n, minKrw / quantity)
    && maxBps == ReturnBps(maxKrw, cost)
    && minBps == ReturnBps(minKrw, cost)
  }

  ghost predicate LotScaled(lot: Lot, o: Origin) {
    && Scaled(o, lot.marks, lot.quantity, lot.costKrw, lot.entryQuoteKrw,
              lot.maxKrw, lot.minKrw, lot.maxBps, lot.minBps)
    && lot.marks == |o.bids|
    && lot.entryFeeKrw == o.feeKrw
  }

  ghost predicate ClosedScaled(c: Closed, o: Origin) {
    Scaled(o, c.marks, c.quantity, c.costKrw, c.entryQuoteKrw, c.maxKrw, c.minKrw, c.maxBps, c.minBps)
  }

  lemma BpsScales(pnl: real, cost: real, fraction: real)
    requires fraction > 0.0
    ensures ReturnBps(pnl * fraction, cost * fraction) == ReturnBps(pnl, cost)
  {
    if cost > 0.0 {
      assert cost * fraction > 0.0;
      assert (pnl * fraction) / (cost * fraction) == pnl / cost;
    } else {
      assert cost * fraction <= 0.0;
    }
  }

  lemma BpsMonotone(p: real, q: real, cost: real)
    requires p <= q
    ensures ReturnBps(p, cost) <= ReturnBps(q, cost)
  {
    if cost > 0.0 {
      assert q / cost - p / cost == (q - p) / cost >= 0.0;
    }
  }

  /** Taking a positive fraction of a scaled amount keeps it scaled. */
  lemma FractionScaled(
    o: Origin, n: nat, quantity: real, cost: real, entryQuote: real,
    maxKrw: real, minKrw: real, maxBps: real, minBps: real, f: real)
    requires f > 0.0
    requires Scaled(o, n, quantity, cost, entryQuote, maxKrw, minKrw, maxBps, minBps)
    ensures Scaled(o, n, quantity * f, cost * f, entryQuote * f, maxKrw * f, minKrw * f, maxBps, minBps)
  {
    Associate(quantity, Unit(o), f);
    Associate(quantity, o.quoteKrw / o.quantity, f);
    QuotientScales(maxKrw, quantity, f);
    QuotientScales(minKrw, quantity, f);
    BpsScales(maxKrw, cost, f);
    BpsScales(minKrw, cost, f);
  }

  lemma Associate(a: real, b: real, f: real)
    ensures (a * b) * f == (a * f) * b
  {
  }

  lemma QuotientMonotone(x: real, y: real, z: real)
    requires z > 0.0 && x <= y
    ensures x / z <= y / z
    ensures x < y ==> x / z < y / z
  {
    PositiveQuotient(y - x, z);
    QuotientDifference(y, x, z);
  }

  lemma QuotientDifference(x: real, y: real, z: real)
    requires z > 0.0
    ensures (x - y) / z == x / z - y / z
  {
  }

  lemma FractionBounds(part: real, whole: real)
    requires 0.0 < part <= whole
    ensures 0.0 < part / whole <= 1.0
    ensures whole * (part / whole) == part
    ensures part < whole ==> part / whole < 1.0
  {
    PositiveQuotient(part, whole);
    QuotientMonotone(part, whole, whole);
    SelfQuotient(whole);
    assert whole * (part / whole) == part;
  }

  lemma SelfQuotient(whole: real)
    requires whole > 0.0
    ensures whole / whole == 1.0
  {
    var r := whole / whole;
    assert r * whole == whole;
    assert (r - 1.0) * whole == 0.0;
  }

  /** The lot with every amount multiplied by `f`; its per-unit marks stay. */
  function Part(lot: Lot, f: real): Lot {
    lot.(quantity := lot.quantity * f, costKrw := lot.costKrw * f, entryQuoteKrw := lot.entryQuoteKrw * f,
         maxKrw := lot.maxKrw * f, minKrw := lot.minKrw * f)
  }

  ghost predicate ClosesPart(c: Closed, part: Lot) {
    && c.quantity == part.quantity && c.costKrw == part.costKrw && c.entryQuoteKrw == part.entryQuoteKrw
    && c.maxKrw == part.maxKrw && c.minKrw == part.minKrw
    && c.maxBps == part.maxBps && c.minBps == part.minBps && c.marks == part.marks
  }

  /** The closed part is the same fraction `f` of every amount, and the rest is the fraction `1 - f`. */
  lemma CloseIsFraction(lot: Lot, fill: Fill, remaining: real) returns (f: real)
    requires lot.quantity > 0.0 && remaining > 0.0
    ensures 0.0 < f <= 1.0
    ensures var c := ClosePart(lot, fill, remaining);
            && (c.quantity < lot.quantity ==> f < 1.0)
            && 0.0 < c.quantity <= lot.quantity
            && ClosesPart(c, Part(lot, f))
            && Rest(lot, c) == Part(lot, 1.0 - f)
  {
    var closed := Min(lot.quantity, remaining);
    FractionBounds(closed, lot.quantity);
    f := closed / lot.quantity;
    Complement(lot.quantity, f);
    Complement(lot.costKrw, f);
    Complement(lot.entryQuoteKrw, f);
    Complement(lot.maxKrw, f);
    Complement(lot.minKrw, f);
  }

  lemma Complement(x: real, f: real)
    ensures x * (1.0 - f) == x - x * f
  {
  }

  lemma AmountsScaled(lot: Lot, o: Origin, f: real,
                      quantity: real, cost: real, entryQuote: real, maxKrw: real, minKrw: real)
    requires LotScaled(lot, o) && f > 0.0
    requires quantity == lot.quantity * f && cost == lot.costKrw * f && entryQuote == lot.entryQuoteKrw * f
    requires maxKrw == lot.maxKrw * f && minKrw == lot.minKrw * f
    ensures Scaled(o, lot.marks, quantity, cost, entryQuote, maxKrw, minKrw, lot.maxBps, lot.minBps)
  {
    hide Scaled;
    FractionScaled(o, lot.marks, lot.quantity, lot.costKrw, lot.entryQuoteKrw, lot.maxKrw, lot.minKrw,
                   lot.maxBps, lot.minBps, f);
  }

  lemma PartScaled(lot: Lot, o: Origin, f: real)
    requires LotScaled(lot, o) && f > 0.0
    ensures LotScaled(Part(lot, f), o)
  {
    hide Scaled;
    var p := Part(lot, f);
    AmountsScaled(lot, o, f, p.quantity, p.costKrw, p.entryQuoteKrw, p.maxKrw, p.minKrw);
  }

  lemma ClosedLikePart(c: Closed, part: Lot, o: Origin)
    requires LotScaled(part, o) && ClosesPart(c, part)
    ensures ClosedScaled(c, o)
  {
  }

  /** A partial close distorts nothing: both the closed part and the rest stay scaled copies. */
  lemma CloseKeepsScaled(lot: Lot, o: Origin, fill: Fill, remaining: real)
    requires LotScaled(lot, o) && remaining > 0.0
    ensures var c := ClosePart(lot, fill, remaining);
            && ClosedScaled(c, o)
            && 0.0 < c.quantity <= lot.quantity
            && (c.quantity < lot.quantity ==> LotScaled(Rest(lot, c), o))
  {
    var f := CloseIsFraction(lot, fill, remaining);
    PartScaled(lot, o, f);
    ClosedLikePart(ClosePart(lot, fill, remaining), Part(lot, f), o);
    if f < 1.0 {
      PartScaled(lot, o, 1.0 - f);
    }
  }

  lemma OpenIsScaled(fill: Fill, serial: nat)
    requires fill.quantity > 0.0
    ensures LotScaled(OpenLot(fill, serial),
                      Origin(fill.quantity, fill.quoteKrw + fill.feeKrw, fill.quoteKrw, fill.feeKrw, []))
  {
    var cost := fill.quoteKrw + fill.feeKrw;
    assert fill.quantity * (cost / fill.quantity) == cost;
    assert fill.quantity * (fill.quoteKrw / fill.quantity) == fill.quoteKrw;
  }

  function WithBid(o: Origin, bid: real): Origin {
    o.(bids := o.bids + [bid])
  }

  lemma BestGrows(o: Origin, best: real, bid: real)
    requires o.quantity > 0.0 && IsBest(o, |o.bids|, best)
    ensures IsBest(WithBid(o, bid), |o.bids| + 1, Max(best, bid - Unit(o)))
  {
    var now := WithBid(o, bid);
    var n := |o.bids|;
    assert now.bids[n] == bid;
    if best >= bid - Unit(o) && best != -o.feeKrw / o.quantity {
      var i :| 0 <= i < n && best == o.bids[i] - Unit(o);
      assert now.bids[i] == o.bids[i];
    }
  }

  lemma WorstGrows(o: Origin, worst: real, bid: real)
    requires o.quantity > 0.0 && IsWorst(o, |o.bids|, worst)
    ensures IsWorst(WithBid(o, bid), |o.bids| + 1, Min(worst, bid - Unit(o)))
  {
    var now := WithBid(o, bid);
    var n := |o.bids|;
    assert now.bids[n] == bid;
    if worst <= bid - Unit(o) && worst != -o.feeKrw / o.quantity {
      var i :| 0 <= i < n && worst == o.bids[i] - Unit(o);
      assert now.bids[i] == o.bids[i];
    }
  }

  lemma GainPerUnit(q: real, bid: real, cost: real, unit: real)
    requires q > 0.0 && cost == q * unit
    ensures (q * bid - cost) / q == bid - unit
  {
    QuotientDifference(q * bid, cost, q);
  }

  lemma ExtremePerUnit(q: real, x: real, y: real)
    requires q > 0.0
    ensures Max(x, y) / q == Max(x / q, y / q)
    ensures Min(x, y) / q == Min(x / q, y / q)
  {
    if x <= y {
      QuotientMonotone(x, y, q);
    } else {
      QuotientMonotone(y, x, q);
    }
  }

  lemma MarkedExtremes(lot: Lot, bid: real) returns (pnl: real)
    requires lot.quantity > 0.0
    ensures pnl == lot.quantity * bid - lot.costKrw
    ensures var now := Marked(lot, lot.market, bid);
            now.maxKrw == Max(lot.maxKrw, pnl) && now.minKrw == Min(lot.minKrw, pnl)
  {
    pnl := lot.quantity * bid - lot.costKrw;
  }

  /** A mark is a per-unit step: the new extremes per unit are those of the old ones and the bid's gain. */
  lemma MarkPerUnit(lot: Lot, o: Origin, bid: real)
    requires o.quantity > 0.0 && lot.quantity > 0.0 && lot.costKrw == lot.quantity * Unit(o)
    ensures var now := Marked(lot, lot.market, bid);
            && now.maxKrw / lot.quantity == Max(lot.maxKrw / lot.quantity, bid - Unit(o))
            && now.minKrw / lot.quantity == Min(lot.minKrw / lot.quantity, bid - Unit(o))
  {
    hide Unit, ReturnBps, Marked;
    GainPerUnit(lot.quantity, bid, lot.costKrw, Unit(o));
    var pnl := MarkedExtremes(lot, bid);
    ExtremePerUnit(lot.quantity, lot.maxKrw, pnl);
    ExtremePerUnit(lot.quantity, lot.minKrw, pnl);
  }

  lemma MarkBps(lot: Lot, bid: real)
    requires lot.quantity > 0.0
    requires lot.maxBps == ReturnBps(lot.maxKrw, lot.costKrw) && lot.minBps == ReturnBps(lot.minKrw, lot.costKrw)
    ensures var now := Marked(lot, lot.market, bid);
            now.maxBps == ReturnBps(now.maxKrw, now.costKrw) && now.minBps == ReturnBps(now.minKrw, now.costKrw)
  {
    var pnl := lot.quantity * bid - lot.costKrw;
    BpsMax(lot.maxKrw, pnl, lot.costKrw);
    BpsMax(lot.minKrw, pnl, lot.costKrw);
  }

  lemma UnitUnmarked(o: Origin, bid: real)
    requires o.quantity > 0.0
    ensures Unit(WithBid(o, bid)) == Unit(o)
  {
  }

  lemma MarkedKeeps(lot: Lot, bid: real)
    requires lot.quantity > 0.0
    ensures var now := Marked(lot, lot.market, bid);
            && now.quantity == lot.quantity && now.costKrw == lot.costKrw && now.entryQuoteKrw == lot.entryQuoteKrw
            && now.entryFeeKrw == lot.entryFeeKrw && now.marks == lot.marks + 1
  {
    hide ReturnBps;
  }

  lemma MarkKeepsScaled(lot: Lot, o: Origin, bid: real)
    requires LotScaled(lot, o)
    ensures LotScaled(Marked(lot, lot.market, bid), WithBid(o, bid))
  {
    hide Unit, ReturnBps, IsBest, IsWorst, Marked, Max, Min;
    UnitUnmarked(o, bid);
    MarkedKeeps(lot, bid);
    MarkPerUnit(lot, o, bid);
    MarkBps(lot, bid);
    BestGrows(o, lot.maxKrw / lot.quantity, bid);
    WorstGrows(o, lot.minKrw / lot.quantity, bid);
  }

  lemma BpsMax(p: real, q: real, cost: real)
    ensures ReturnBps(Max(p, q), cost) == Max(ReturnBps(p, cost), ReturnBps(q, cost))
    ensures ReturnBps(Min(p, q), cost) == Min(ReturnBps(p, cost), ReturnBps(q, cost))
  {
    if p <= q {
      BpsMonotone(p, q, cost);
    } else {
      BpsMonotone(q, p, cost);
    }
  }

  // ---------------------------------------------------------------------------------------------
  // The invariant of every book

  /** Every lot and closed trade is scaled from the origin its serial names. */
  ghost predicate Grounded(book: Book) {
    && (forall i :: 0 <= i < |book.lots| ==>
          book.lots[i].serial < |book.origins| && LotScaled(book.lots[i], book.origins[book.lots[i].serial]))
    && (forall i :: 0 <= i < |book.closed| ==>
          book.closed[i].serial < |book.origins| && ClosedScaled(book.closed[i], book.origins[book.closed[i].serial]))
  }

  /** Lots queue in buying order and close in that order: a trade closed earlier never belongs to a later
      buy, and everything closed belongs to a buy no later than the oldest open lot. */
  ghost predicate FifoOrdered(book: Book) {
    && (forall i, j :: 0 <= i < j < |book.lots| ==> book.lots[i].serial < book.lots[j].serial)
    && (forall i, j :: 0 <= i < j < |book.closed| ==> book.closed[i].serial <= book.closed[j].serial)
    && (forall i, j :: 0 <= i < |book.closed| && 0 <= j < |book.lots| ==> book.closed[i].serial <= book.lots[j].serial)
  }

  /** A retired lot holds at most 1e-12 base units. */
  ghost predicate OnlyDustRetired(book: Book) {
    forall i :: 0 <= i < |book.retired| ==> 0.0 <= book.retired[i].quantity <= 0.000000000001
  }

  ghost predicate Booked(c: Closed) {
    && c.realizedKrw == c.soldQuoteKrw - c.soldFeeKrw - c.costKrw
    && (c.gaveBackPositiveMfe <==> c.realizedKrw < 0.0 && c.maxKrw > 0.0)
  }

  ghost predicate AllBooked(book: Book) {
    forall i :: 0 <= i < |book.closed| ==> Booked(book.closed[i])
  }

  ghost predicate WellFormed(book: Book) {
    Grounded(book) && FifoOrdered(book) && OnlyDustRetired(book) && AllBooked(book)
  }

  ghost predicate PositiveBuys(events: seq<Event>) {
    forall i :: 0 <= i < |events| && events[i].Trade? && events[i].fill.side.BuySide? ==> events[i].fill.quantity > 0.0
  }

  lemma MatchHeadKeepsWellFormed(book: Book, fill: Fill, remaining: real)
    requires WellFormed(book) && Matches(book, fill, remaining)
    ensures WellFormed(MatchHead(book, fill, remaining))
  {
    var lot := book.lots[0];
    var c := ClosePart(lot, fill, remaining);
    CloseKeepsScaled(lot, book.origins[lot.serial], fill, remaining);
    assert Booked(c);
    HeadGrounded(book, c, Rest(lot, c));
  }

  /** Replacing or dropping the head lot and appending its closed part keeps the queue discipline. */
  lemma HeadGrounded(book: Book, c: Closed, rest: Lot)
    requires WellFormed(book) && book.lots != []
    requires var lot := book.lots[0];
             && c.serial == lot.serial && rest.serial == lot.serial
             && ClosedScaled(c, book.origins[lot.serial]) && Booked(c)
             && 0.0 <= rest.quantity
             && (rest.quantity > 0.0 ==> LotScaled(rest, book.origins[lot.serial]))
    ensures rest.quantity <= DUST ==>
              WellFormed(book.(lots := book.lots[1..], closed := book.closed + [c], retired := book.retired + [rest]))
    ensures rest.quantity > DUST ==>
              WellFormed(book.(lots := [rest] + book.lots[1..], closed := book.closed + [c]))
  {
    if rest.quantity <= DUST {
      HeadDropped(book, c, rest);
    } else {
      HeadReplaced(book, c, rest);
    }
  }

  lemma HeadDropped(book: Book, c: Closed, rest: Lot)
    requires WellFormed(book) && book.lots != []
    requires c.serial == book.lots[0].serial && ClosedScaled(c, book.origins[c.serial]) && Booked(c)
    requires 0.0 <= rest.quantity <= DUST
    ensures WellFormed(book.(lots := book.lots[1..], closed := book.closed + [c], retired := book.retired + [rest]))
  {
  }

  lemma HeadReplaced(book: Book, c: Closed, rest: Lot)
    requires WellFormed(book) && book.lots != []
    requires c.serial == book.lots[0].serial && ClosedScaled(c, book.origins[c.serial]) && Booked(c)
    requires rest.serial == c.serial && LotScaled(rest, book.origins[c.serial])
    ensures WellFormed(book.(lots := [rest] + book.lots[1..], closed := book.closed + [c]))
  {
    var lots := [rest] + book.lots[1..];
    assert forall i :: 1 <= i < |lots| ==> lots[i] == book.lots[i];
    HeadReplacedOrder(book, c, rest);
    ReplacedGrounded(book, lots, book.closed + [c]);
  }

  lemma HeadReplacedOrder(book: Book, c: Closed, rest: Lot)
    requires FifoOrdered(book) && book.lots != []
    requires c.serial == book.lots[0].serial && rest.serial == c.serial
    ensures FifoOrdered(book.(lots := [rest] + book.lots[1..], closed := book.closed + [c]))
  {
    var after := book.(lots := [rest] + book.lots[1..], closed := book.closed + [c]);
    assert forall i :: 0 <= i < |after.lots| ==> after.lots[i].serial == book.lots[i].serial;
  }

  lemma ReplacedGrounded(book: Book, lots: seq<Lot>, closed: seq<Closed>)
    requires forall i :: 0 <= i < |lots| ==>
               lots[i].serial < |book.origins| && LotScaled(lots[i], book.origins[lots[i].serial])
    requires forall i :: 0 <= i < |closed| ==>
               closed[i].serial < |book.origins| && ClosedScaled(closed[i], book.origins[closed[i].serial])
    ensures Grounded(book.(lots := lots, closed := closed))
  {
  }

  lemma {:induction false} MatchSellKeepsWellFormed(book: Book, fill: Fill, remaining: real)
    requires WellFormed(book)
    ensures WellFormed(MatchSell(book, fill, remaining).0)
    decreases |book.lots|, if remaining > DUST then 1 else 0
  {
    if Matches(book, fill, remaining) {
      MatchHeadKeepsWellFormed(book, fill, remaining);
      MatchSellKeepsWellFormed(MatchHead(book, fill, remaining), fill,
                               remaining - Min(book.lots[0].quantity, remaining));
    }
  }

  lemma BuyKeepsWellFormed(book: Book, fill: Fill)
    requires WellFormed(book) && fill.side.BuySide? && fill.quantity > 0.0
    ensures WellFormed(ApplyFill(book, fill))
  {
    hide LotScaled, ClosedScaled, Booked;
    OpenIsScaled(fill, |book.origins|);
    var after := ApplyFill(book, fill);
    assert forall s :: 0 <= s < |book.origins| ==> after.origins[s] == book.origins[s];
  }

  lemma LaterMarksKeepScaled(o: Origin, bid: real, c: Closed)
    requires ClosedScaled(c, o)
    ensures ClosedScaled(c, WithBid(o, bid))
  {
    hide Unit, ReturnBps, IsBest, IsWorst;
    UnitUnmarked(o, bid);
    StillBest(o, bid, c.marks, c.maxKrw / c.quantity);
    StillWorst(o, bid, c.marks, c.minKrw / c.quantity);
  }

  lemma StillBest(o: Origin, bid: real, n: nat, best: real)
    requires o.quantity > 0.0 && IsBest(o, n, best)
    ensures IsBest(WithBid(o, bid), n, best)
  {
    var now := WithBid(o, bid);
    assert forall i :: 0 <= i < n ==> now.bids[i] == o.bids[i];
  }

  lemma StillWorst(o: Origin, bid: real, n: nat, worst: real)
    requires o.quantity > 0.0 && IsWorst(o, n, worst)
    ensures IsWorst(WithBid(o, bid), n, worst)
  {
    var now := WithBid(o, bid);
    assert forall i :: 0 <= i < n ==> now.bids[i] == o.bids[i];
  }

  /** Serials identify lots: the origin of a lot gains a bid exactly when the lot itself is marked. */
  lemma TouchedBySerial(book: Book, market: string, i: nat)
    requires WellFormed(book) && i < |book.lots|
    ensures TouchesSerial(book.lots, market, book.lots[i].serial) <==> Touches(book.lots[i], market)
  {
    if TouchesSerial(book.lots, market, book.lots[i].serial) {
      var j :| 0 <= j < |book.lots| && book.lots[j].serial == book.lots[i].serial && Touches(book.lots[j], market);
      assert !(i < j) && !(j < i);
    }
  }

  lemma MarkKeepsWellFormed(book: Book, market: string, bid: real)
    requires WellFormed(book)
    ensures WellFormed(ApplyMark(book, market, bid))
  {
    hide LotScaled, ClosedScaled, Booked, Marked, TouchesSerial;
    var after := ApplyMark(book, market, bid);
    forall i | 0 <= i < |book.lots|
      ensures after.lots[i].serial == book.lots[i].serial
      ensures LotScaled(after.lots[i], after.origins[after.lots[i].serial])
    {
      MarkLot(book, market, bid, i);
    }
    forall i | 0 <= i < |book.closed| ensures ClosedScaled(after.closed[i], after.origins[after.closed[i].serial]) {
      LaterMarksKeepScaled(book.origins[book.closed[i].serial], bid, book.closed[i]);
    }
  }

  lemma MarkLot(book: Book, market: string, bid: real, i: nat)
    requires WellFormed(book) && i < |book.lots|
    ensures var after, serial := ApplyMark(book, market, bid), book.lots[i].serial;
            && serial < |book.origins|
            && after.lots[i].serial == serial && LotScaled(after.lots[i], after.origins[serial])
  {
    hide ReturnBps, IsBest, IsWorst, FifoOrdered, AllBooked, OnlyDustRetired;
    var lot := book.lots[i];
    TouchedBySerial(book, market, i);
    if lot.market == market {
      MarkKeepsScaled(lot, book.origins[lot.serial], bid);
    }
  }

  /** Over any fills with positive buys and any marks: every open lot and every closed trade carries exactly
      its share of its buy's cost, and as its extremes its quantity times the best (worst) of minus the fee
      per unit and every bid marked while it was open minus the unit cost; lots close in buying order; at
      most 1e-12 base units are retired per lot. */
  lemma {:induction false} EveryBookIsWellFormed(events: seq<Event>)
    requires PositiveBuys(events)
    ensures WellFormed(BookAfter(events))
  {
    if events != [] {
      var n := |events| - 1;
      assert forall i :: 0 <= i < n ==> events[..n][i] == events[i];
      EveryBookIsWellFormed(events[..n]);
      var book := BookAfter(events[..n]);
      match events[n]
      case Mark(market, bid) => MarkKeepsWellFormed(book, market, bid);
      case Trade(fill) =>
        if fill.side.BuySide? {
          BuyKeepsWellFormed(book, fill);
        } else if fill.side.SellSide? {
          MatchSellKeepsWellFormed(book, fill, fill.quantity);
        }
    }
  }

  // ---------------------------------------------------------------------------------------------
  // KRW and basis points

  /** The KRW excursions times 10000 are the basis-point excursions times the cost. */
  predicate BpsConsistent(maxKrw: real, minKrw: real, maxBps: real, minBps: real, cost: real) {
    maxKrw * 10_000.0 == maxBps * cost && minKrw * 10_000.0 == minBps * cost
  }

  lemma BpsOfPositiveCost(pnl: real, cost: real)
    requires cost > 0.0
    ensures pnl * 10_000.0 == ReturnBps(pnl, cost) * cost
  {
    var ratio := pnl / cost;
    assert ratio * cost == pnl;
    assert (ratio * 10_000.0) * cost == (ratio * cost) * 10_000.0;
  }

  lemma ScaledIsConsistent(
    o: Origin, n: nat, quantity: real, cost: real, entryQuote: real,
    maxKrw: real, minKrw: real, maxBps: real, minBps: real)
    requires Scaled(o, n, quantity, cost, entryQuote, maxKrw, minKrw, maxBps, minBps) && o.costKrw > 0.0
    ensures BpsConsistent(maxKrw, minKrw, maxBps, minBps, cost)
  {
    PositiveQuotient(o.costKrw, o.quantity);
    assert cost > 0.0;
    BpsOfPositiveCost(maxKrw, cost);
    BpsOfPositiveCost(minKrw, cost);
  }

  predicate LotConsistent(book: Book, i: nat)
    requires i < |book.lots|
  {
    var l := book.lots[i];
    l.serial < |book.origins| && book.origins[l.serial].costKrw > 0.0 ==>
      BpsConsistent(l.maxKrw, l.minKrw, l.maxBps, l.minBps, l.costKrw)
  }

  predicate ClosedConsistent(book: Book, i: nat)
    requires i < |book.closed|
  {
    var c := book.closed[i];
    c.serial < |book.origins| && book.origins[c.serial].costKrw > 0.0 ==>
      BpsConsistent(c.maxKrw, c.minKrw, c.maxBps, c.minBps, c.costKrw)
  }

  /** For open lots against their cost and closed trades against their allocated cost, when the buy cost something. */
  lemma ExcursionsAreConsistent(events: seq<Event>)
    requires PositiveBuys(events)
    ensures var book := BookAfter(events);
            && (forall i :: 0 <= i < |book.lots| ==> LotConsistent(book, i))
            && (forall i :: 0 <= i < |book.closed| ==> ClosedConsistent(book, i))
  {
    EveryBookIsWellFormed(events);
    var book := BookAfter(events);
    forall i | 0 <= i < |book.lots| ensures LotConsistent(book, i) {
      var l := book.lots[i];
      if book.origins[l.serial].costKrw > 0.0 {
        ScaledIsConsistent(book.origins[l.serial], l.marks, l.quantity, l.costKrw, l.entryQuoteKrw,
                           l.maxKrw, l.minKrw, l.maxBps, l.minBps);
      }
    }
    forall i | 0 <= i < |book.closed| ensures ClosedConsistent(book, i) {
      var c := book.closed[i];
      if book.origins[c.serial].costKrw > 0.0 {
        ScaledIsConsistent(book.origins[c.serial], c.marks, c.quantity, c.costKrw, c.entryQuoteKrw,
                           c.maxKrw, c.minKrw, c.maxBps, c.minBps);
      }
    }
  }

  /** The condition is exact: a buy keeps the two scales consistent under every mark iff it cost something. */
  lemma ConsistentIffCostly(fill: Fill)
    requires fill.side.BuySide? && fill.quantity > 0.0
    ensures (forall bid :: var l := Marked(OpenLot(fill, 0), fill.market, bid);
               BpsConsistent(l.maxKrw, l.minKrw, l.maxBps, l.minBps, l.costKrw))
       <==> fill.quoteKrw + fill.feeKrw > 0.0
  {
    var lot := OpenLot(fill, 0);
    if lot.costKrw > 0.0 {
      forall bid
        ensures var l := Marked(lot, fill.market, bid); BpsConsistent(l.maxKrw, l.minKrw, l.maxBps, l.minBps, l.costKrw)
      {
        OpenIsScaled(fill, 0);
        var o := Origin(fill.quantity, lot.costKrw, fill.quoteKrw, fill.feeKrw, []);
        MarkKeepsScaled(lot, o, bid);
        var l := Marked(lot, fill.market, bid);
        ScaledIsConsistent(WithBid(o, bid), l.marks, l.quantity, l.costKrw, l.entryQuoteKrw,
                           l.maxKrw, l.minKrw, l.maxBps, l.minBps);
      }
    } else {
      var bid := (lot.costKrw + 1.0) / fill.quantity;
      assert fill.quantity * bid == lot.costKrw + 1.0;
      var l := Marked(lot, fill.market, bid);
      assert l.maxKrw >= 1.0 && l.maxBps == 0.0;
      assert !BpsConsistent(l.maxKrw, l.minKrw, l.maxBps, l.minBps, l.costKrw);
    }
  }

  // ---------------------------------------------------------------------------------------------
  // One sell

  /** What a sell closed, seen from the book before it. */
  function NewlyClosed(book: Book, fill: Fill, remaining: real): seq<Closed>
  {
    MatchSell(book, fill, remaining).0.closed[|book.closed|..]
  }

  /** The trades `added` share `matched` of the fill's quantity, and the same share of its quote and fee. */
  ghost predicate Allocated(added: seq<Closed>, fill: Fill, matched: real)
    requires fill.quantity > 0.0
  {
    && Sum(ClosedQuantity, added) == matched
    && Sum(SoldQuote, added) == fill.quoteKrw * (matched / fill.quantity)
    && Sum(SoldFee, added) == fill.feeKrw * (matched / fill.quantity)
    && Sum(Realized, added) == Sum(SoldQuote, added) - Sum(SoldFee, added) - Sum(ClosedCost, added)
  }

  /** What one pass allocates: the fill's amounts in proportion to the closed quantity. */
  ghost predicate Allotted(c: Closed, fill: Fill)
    requires fill.quantity > 0.0
  {
    && c.soldQuoteKrw == fill.quoteKrw * (c.quantity / fill.quantity)
    && c.soldFeeKrw == fill.feeKrw * (c.quantity / fill.quantity)
    && c.realizedKrw == c.soldQuoteKrw - c.soldFeeKrw - c.costKrw
  }

  lemma CloseAllots(lot: Lot, fill: Fill, remaining: real)
    requires fill.quantity > 0.0
    ensures Allotted(ClosePart(lot, fill, remaining), fill)
  {
  }

  lemma AllocatedGrows(c: Closed, fill: Fill, later: seq<Closed>, matched: real)
    requires fill.quantity > 0.0 && Allotted(c, fill) && Allocated(later, fill, matched)
    ensures Allocated([c] + later, fill, c.quantity + matched)
  {
    assert ([c] + later)[1..] == later;
    Share(fill.quoteKrw, c.quantity, matched, fill.quantity);
    Share(fill.feeKrw, c.quantity, matched, fill.quantity);
  }

  lemma Share(amount: real, x: real, y: real, whole: real)
    requires whole > 0.0
    ensures amount * (x / whole) + amount * (y / whole) == amount * ((x + y) / whole)
  {
    assert (x + y) / whole == x / whole + y / whole;
  }

  /** Each closed trade of a sell gets the sell's proceeds and fee in proportion to its quantity; together
      they get the matched share; what stays unmatched is at most 1e-12, unless the queue ran empty or its
      head is of another market. */
  lemma {:induction false} SellAllocates(book: Book, fill: Fill, remaining: real)
    requires fill.quantity > 0.0 && remaining >= 0.0
    ensures var (after, left) := MatchSell(book, fill, remaining);
            && left >= 0.0
            && Allocated(NewlyClosed(book, fill, remaining), fill, remaining - left)
            && (left <= 0.000000000001 || after.lots == [] || after.lots[0].market != fill.market)
    decreases |book.lots|, if remaining > DUST then 1 else 0
  {
    hide Allocated, Allotted, Fraction;
    if Matches(book, fill, remaining) {
      var c := ClosePart(book.lots[0], fill, remaining);
      var next := MatchHead(book, fill, remaining);
      var rest := remaining - Min(book.lots[0].quantity, remaining);
      SellAllocates(next, fill, rest);
      var left := MatchSell(next, fill, rest).1;
      CloseAllots(book.lots[0], fill, remaining);
      AllocatedGrows(c, fill, NewlyClosed(next, fill, rest), rest - left);
      assert NewlyClosed(book, fill, remaining) == [c] + NewlyClosed(next, fill, rest);
    } else {
      NothingAllocated(fill);
      assert NewlyClosed(book, fill, remaining) == [];
    }
  }

  lemma NothingAllocated(fill: Fill)
    requires fill.quantity > 0.0
    ensures Allocated([], fill, 0.0)
  {
  }

  /** A sell that is fully matched realizes its net proceeds minus the cost of what it closed. */
  lemma FullyMatchedSell(book: Book, fill: Fill)
    requires fill.quantity > 0.0 && MatchSell(book, fill, fill.quantity).1 == 0.0
    ensures var added := NewlyClosed(book, fill, fill.quantity);
            Sum(Realized, added) == fill.quoteKrw - fill.feeKrw - Sum(ClosedCost, added)
  {
    SellAllocates(book, fill, fill.quantity);
    WholeShare(fill.quoteKrw, fill.quantity);
    WholeShare(fill.feeKrw, fill.quantity);
  }

  lemma WholeShare(amount: real, whole: real)
    requires whole > 0.0
    ensures amount * (whole / whole) == amount
  {
  }

  /** The matched share of a sell's proceeds after its fee. */
  function MatchedNet(book: Book, fill: Fill): real {
    if fill.quantity <= 0.0 then 0.0
    else
      var matched := fill.quantity - MatchSell(book, fill, fill.quantity).1;
      fill.quoteKrw * (matched / fill.quantity) - fill.feeKrw * (matched / fill.quantity)
  }

  /** The same over all sells of a run. */
  function NetProceeds(events: seq<Event>): real {
    if events == [] then 0.0
    else
      var n := |events| - 1;
      NetProceeds(events[..n])
      + (if events[n].Trade? && events[n].fill.side.SellSide? then MatchedNet(BookAfter(events[..n]), events[n].fill)
         else 0.0)
  }

  lemma SellRealizes(book: Book, fill: Fill)
    requires fill.side.SellSide?
    ensures Sum(Realized, ApplyFill(book, fill).closed) + Sum(ClosedCost, ApplyFill(book, fill).closed)
         == Sum(Realized, book.closed) + Sum(ClosedCost, book.closed) + MatchedNet(book, fill)
  {
    hide MatchSell, Sum;
    if fill.quantity > 0.0 {
      var added := NewlyClosed(book, fill, fill.quantity);
      SellAllocates(book, fill, fill.quantity);
      assert ApplyFill(book, fill).closed == book.closed + added;
      SumConcat(Realized, book.closed, added);
      SumConcat(ClosedCost, book.closed, added);
    } else {
      NothingMatched(book, fill, fill.quantity);
    }
  }

  lemma NothingMatched(book: Book, fill: Fill, remaining: real)
    requires remaining <= DUST
    ensures MatchSell(book, fill, remaining) == (book, remaining)
  {
  }

  /** Over any run, the realized results add up to the matched net sell proceeds minus the cost of what was
      closed. */
  lemma {:induction false} RealizedIsNetProceeds(events: seq<Event>)
    ensures Sum(Realized, BookAfter(events).closed)
         == NetProceeds(events) - Sum(ClosedCost, BookAfter(events).closed)
  {
    if events != [] {
      var n := |events| - 1;
      RealizedIsNetProceeds(events[..n]);
      if events[n].Trade? && events[n].fill.side.SellSide? {
        SellRealizes(BookAfter(events[..n]), events[n].fill);
      }
    }
  }

  /** Head-of-line blocking, exactly: a sell closes something iff it is more than dust and the oldest open
      lot, of whatever market, is of its own market. Otherwise the book does not change at all. */
  lemma SellClosesIffHeadMatches(book: Book, fill: Fill)
    requires fill.side.SellSide?
    ensures ApplyFill(book, fill) != book
       <==> fill.quantity > 0.000000000001 && book.lots != [] && book.lots[0].market == fill.market
  {
    if Matches(book, fill, fill.quantity) {
      ClosesOne(book, fill, fill.quantity);
    }
  }

  lemma {:induction false} ClosesOne(book: Book, fill: Fill, remaining: real)
    ensures |MatchSell(book, fill, remaining).0.closed|
         >= |book.closed| + (if Matches(book, fill, remaining) then 1 else 0)
    decreases |book.lots|, if remaining > DUST then 1 else 0
  {
    if Matches(book, fill, remaining) {
      ClosesOne(MatchHead(book, fill, remaining), fill, remaining - Min(book.lots[0].quantity, remaining));
    }
  }
}
