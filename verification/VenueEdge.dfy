/** The relative-value edge between two venues, on prices executable for a given notional, with the other
    venue's book converted to KRW where it is quoted in USDT. */
module VenueEdge {
  import opened Basics
  import opened DepthWalk
  import opened RealArithmetic

  datatype Venue = Bithumb | Upbit | Binance

  datatype Book = Book(venue: Venue, bidPrice: Pos, askPrice: Pos, bids: seq<Level>, asks: seq<Level>)

  function Convert(book: Book, bidRate: Pos, askRate: Pos): Book {
    Book(book.venue, AtRate(book.bidPrice, bidRate), AtRate(book.askPrice, askRate),
         Scale(book.bids, bidRate), Scale(book.asks, askRate))
  }

  /** `toKrwBook`: one rate for both sides; only Binance books are converted. */
  function ToKrwBook(book: Book, usdKrw: Option<Pos>): Option<Book> {
    if !book.venue.Binance? then Some(book)
    else if usdKrw.None? then None
    else Some(Convert(book, usdKrw.value, usdKrw.value))
  }

  /** `toKrwBookWithQuoteBook`: bids at the quote's bid, asks at its ask. */
  function ToKrwBookWithQuoteBook(book: Book, quote: Option<Book>): Option<Book> {
    if !book.venue.Binance? then Some(book)
    else if quote.None? then None
    else Some(Convert(book, quote.value.bidPrice, quote.value.askPrice))
  }

  /** The average price over the walked levels, or the best price if nothing can be walked. */
  function ExecutablePrice(levels: seq<Level>, notional: real, best: Pos): (p: real) {
    var average := Average(Walk(levels, notional));
    if average.Some? then average.value else best
  }

  function ExecutableBid(book: Book, notional: real): real {
    ExecutablePrice(book.bids, notional, book.bidPrice)
  }

  function ExecutableAsk(book: Book, notional: real): real {
    ExecutablePrice(book.asks, notional, book.askPrice)
  }

  lemma {:induction false} ExecutablePricePositive(levels: seq<Level>, notional: real, best: Pos)
    ensures ExecutablePrice(levels, notional, best) > 0.0
  {
    hide Walk;
    WalkConsumes(levels, notional);
    TotalNonNegative(levels);
    var w := Walk(levels, notional);
    if w.size > 0.0 {
      SizeSign(w.notional, w.size);
    }
  }

  function FeeRate(bps: real): real {
    bps / 10_000.0
  }

  /** What one unit sold on one book and bought on the other gains, in basis points of its cost. */
  function NetEdgeBps(sellPrice: real, sellFee: real, buyPrice: real, buyFee: real): real
    requires buyPrice > 0.0 && buyFee >= 0.0
  {
    Products(buyPrice, 1.0 + buyFee);
    (sellPrice * (1.0 - sellFee) / (buyPrice * (1.0 + buyFee)) - 1.0) * 10_000.0
  }

  /** Sells at `seller`'s executable bid and buys at `buyer`'s executable ask. */
  function EdgeBetween(seller: Book, sellFee: real, buyer: Book, buyFee: real, notional: real): real
    requires buyFee >= 0.0
  {
    ExecutablePricePositive(buyer.asks, notional, buyer.askPrice);
    NetEdgeBps(ExecutableBid(seller, notional), sellFee, ExecutableAsk(buyer, notional), buyFee)
  }

  datatype Direction = SellBithumbBuyReference | BuyBithumbSellReference

  datatype Edge = Edge(direction: Direction, netEdgeBps: real, pnlKrw: real, depthCovered: bool)

  /** `edgeForReference` before rounding. */
  method EdgeForReference(bithumb: Book, reference: Book, bithumbFeeBps: real, referenceFeeBps: real, notional: real)
    returns (edge: Edge)
    requires bithumbFeeBps >= 0.0 && referenceFeeBps >= 0.0
    ensures var premium := EdgeBetween(bithumb, FeeRate(bithumbFeeBps), reference, FeeRate(referenceFeeBps), notional);
            var discount := EdgeBetween(reference, FeeRate(referenceFeeBps), bithumb, FeeRate(bithumbFeeBps), notional);
            && edge.netEdgeBps == Max(premium, discount)
            && (edge.direction.SellBithumbBuyReference? <==> premium >= discount)
            && edge.pnlKrw == notional * edge.netEdgeBps / 10_000.0
    ensures edge.depthCovered <==>
              if edge.direction.SellBithumbBuyReference?
              then Total(bithumb.bids) >= notional && Total(reference.asks) >= notional
              else Total(bithumb.asks) >= notional && Total(reference.bids) >= notional
  {
    hide Walk, NetEdgeBps;
    var bithumbBid := ExecutableDepth(bithumb.bids, notional);
    var bithumbAsk := ExecutableDepth(bithumb.asks, notional);
    var referenceBid := ExecutableDepth(reference.bids, notional);
    var referenceAsk := ExecutableDepth(reference.asks, notional);
    var sellBithumb := PriceOr(bithumbBid.averagePrice, bithumb.bidPrice);
    var buyBithumb := PriceOr(bithumbAsk.averagePrice, bithumb.askPrice);
    var sellReference := PriceOr(referenceBid.averagePrice, reference.bidPrice);
    var buyReference := PriceOr(referenceAsk.averagePrice, reference.askPrice);
    ExecutablePricePositive(bithumb.asks, notional, bithumb.askPrice);
    ExecutablePricePositive(reference.asks, notional, reference.askPrice);
    var bFee, rFee := FeeRate(bithumbFeeBps), FeeRate(referenceFeeBps);
    var premium := NetEdgeBps(sellBithumb, bFee, buyReference, rFee);
    var discount := NetEdgeBps(sellReference, rFee, buyBithumb, bFee);
    if premium >= discount {
      edge := Edge(SellBithumbBuyReference, premium, notional * premium / 10_000.0,
                   bithumbBid.covers && referenceAsk.covers);
    } else {
      edge := Edge(BuyBithumbSellReference, discount, notional * discount / 10_000.0,
                   bithumbAsk.covers && referenceBid.covers);
    }
  }

  function PriceOr(average: Option<real>, best: Pos): real {
    if average.Some? then average.value else best
  }

  /** What the edge of a notional pays: the `units` it buys, fee included, are sold for their proceeds after the fee. */
  lemma EdgePays(sell: real, sellFeeBps: real, buy: real, buyFeeBps: real, notional: real, units: real)
    requires buy > 0.0 && buyFeeBps >= 0.0
    requires units * (buy + buy * buyFeeBps / 10_000.0) == notional
    ensures notional * NetEdgeBps(sell, FeeRate(sellFeeBps), buy, FeeRate(buyFeeBps)) / 10_000.0
         == units * (sell - sell * sellFeeBps / 10_000.0) - notional
  {
    var proceeds, cost := sell * (1.0 - FeeRate(sellFeeBps)), buy * (1.0 + FeeRate(buyFeeBps));
    Products(buy, 1.0 + FeeRate(buyFeeBps));
    assert proceeds == sell - sell * sellFeeBps / 10_000.0;
    assert cost == buy + buy * buyFeeBps / 10_000.0;
    SoldUnits(units, proceeds, cost);
  }

  lemma SoldUnits(units: real, proceeds: real, cost: Pos)
    ensures (units * cost) * ((proceeds / cost - 1.0) * 10_000.0) / 10_000.0 == units * proceeds - units * cost
  {
    var r := proceeds / cost;
    assert proceeds == r * cost;
    assert (units * cost) * (r - 1.0) == units * (r * cost) - units * cost;
    assert (units * cost) * ((r - 1.0) * 10_000.0) / 10_000.0 == (units * cost) * (r - 1.0);
  }

  /** Only Binance books are converted, and only with a rate or a quote; KRW books stay as they are. */
  lemma OnlyBinanceConverts(book: Book, usdKrw: Option<Pos>, quote: Option<Book>)
    ensures book.venue in {Bithumb, Upbit} ==>
              ToKrwBook(book, usdKrw) == Some(book) == ToKrwBookWithQuoteBook(book, quote)
    ensures book.venue == Binance ==>
              (ToKrwBook(book, usdKrw).Some? <==> usdKrw.Some?)
              && (ToKrwBookWithQuoteBook(book, quote).Some? <==> quote.Some?)
  {
  }

  // ---------------------------------------------------------------------------------------------
  // No gain in both directions

  /** The best bid is below the best ask and no level is better than the best price of its side. */
  ghost predicate Uncrossed(book: Book) {
    && book.bidPrice <= book.askPrice
    && NoBetterThan(Bid, book.bidPrice, book.bids)
    && NoBetterThan(Ask, book.askPrice, book.asks)
  }

  /** A book whose levels are sorted from its best prices on, and whose best prices do not cross, qualifies. */
  lemma SortedIsUncrossed(book: Book)
    requires book.bidPrice <= book.askPrice
    requires BestFirst(Bid, book.bids) && (book.bids != [] ==> book.bids[0].price == book.bidPrice)
    requires BestFirst(Ask, book.asks) && (book.asks != [] ==> book.asks[0].price == book.askPrice)
    ensures Uncrossed(book)
  {
  }

  lemma ExecutablePricesUncrossed(book: Book, notional: real)
    requires Uncrossed(book)
    ensures 0.0 < ExecutableBid(book, notional) <= book.bidPrice
    ensures book.askPrice <= ExecutableAsk(book, notional)
  {
    hide Walk, NoBetterThan;
    ExecutablePricePositive(book.bids, notional, book.bidPrice);
    AverageNoBetter(Bid, book.bidPrice, book.bids, notional);
    AverageNoBetter(Ask, book.askPrice, book.asks, notional);
  }

  /** An edge is positive exactly when the proceeds after fees exceed the cost after fees. */
  lemma EdgeSign(sell: real, sellFee: real, buy: real, buyFee: real)
    requires buy > 0.0 && buyFee >= 0.0
    ensures NetEdgeBps(sell, sellFee, buy, buyFee) > 0.0 <==> Times(sell, 1.0 - sellFee) > Times(buy, 1.0 + buyFee)
  {
    Products(buy, 1.0 + buyFee);
    var cost: Pos := buy * (1.0 + buyFee);
    RatioAboveOne(Times(sell, 1.0 - sellFee), cost);
  }

  lemma FeesCost(price: real, fee: real)
    requires price > 0.0 && fee >= 0.0
    ensures Times(price, 1.0 - fee) <= price <= Times(price, 1.0 + fee)
  {
    assert price * fee >= 0.0;
  }

  /** Buying on one book and selling on the other cannot gain in both directions, whatever the notional and
      whatever non-negative fees are paid. */
  lemma NoTwoWayGain(a: Book, aFee: real, b: Book, bFee: real, notional: real)
    requires Uncrossed(a) && Uncrossed(b) && aFee >= 0.0 && bFee >= 0.0
    ensures !(EdgeBetween(a, aFee, b, bFee, notional) > 0.0 && EdgeBetween(b, bFee, a, aFee, notional) > 0.0)
  {
    hide Walk, NetEdgeBps, Times, Uncrossed, ExecutablePrice;
    ExecutablePricesUncrossed(a, notional);
    ExecutablePricesUncrossed(b, notional);
    TopIsUncrossed(a);
    TopIsUncrossed(b);
    var aBid, aAsk, bBid, bAsk :=
      ExecutableBid(a, notional), ExecutableAsk(a, notional), ExecutableBid(b, notional), ExecutableAsk(b, notional);
    FeesCost(aBid, aFee);
    FeesCost(aAsk, aFee);
    FeesCost(bBid, bFee);
    FeesCost(bAsk, bFee);
    EdgeSign(aBid, aFee, bAsk, bFee);
    EdgeSign(bBid, bFee, aAsk, aFee);
  }

  lemma TopIsUncrossed(book: Book)
    requires Uncrossed(book)
    ensures book.bidPrice <= book.askPrice
  {
  }

  /** Trading a book against itself never gains. */
  lemma SelfEdgeIsNotPositive(a: Book, sellFee: real, buyFee: real, notional: real)
    requires Uncrossed(a) && sellFee >= 0.0 && buyFee >= 0.0
    ensures EdgeBetween(a, sellFee, a, buyFee, notional) <= 0.0
  {
    hide Walk, NetEdgeBps, Times, Uncrossed, ExecutablePrice;
    ExecutablePricesUncrossed(a, notional);
    TopIsUncrossed(a);
    var bid, ask := ExecutableBid(a, notional), ExecutableAsk(a, notional);
    FeesCost(bid, sellFee);
    FeesCost(ask, buyFee);
    EdgeSign(bid, sellFee, ask, buyFee);
  }

  // ---------------------------------------------------------------------------------------------
  // Conversion

  lemma ScaledNoBetter(side: Side, p: Pos, levels: seq<Level>, q: Pos)
    requires NoBetterThan(side, p, levels)
    ensures NoBetterThan(side, AtRate(p, q), Scale(levels, q))
  {
    hide AtRate;
    forall k | 0 <= k < |levels| ensures AsGood(side, AtRate(p, q), Scale(levels, q)[k].price) {
      assert AsGood(side, p, levels[k].price);
      ScaledAsGood(side, p, levels[k].price, q);
    }
  }

  lemma ScaledAsGood(side: Side, a: Pos, b: Pos, q: Pos)
    requires AsGood(side, a, b)
    ensures AsGood(side, AtRate(a, q), AtRate(b, q))
  {
    hide AtRate, Times;
    CancelFactor(q, a, b);
    CancelFactor(q, b, a);
    AtRateIsProduct(a, q);
    AtRateIsProduct(b, q);
  }

  lemma RatesOrdered(a: Pos, b: Pos, p: Pos, q: Pos)
    requires a <= b && p <= q
    ensures AtRate(a, p) <= AtRate(b, q)
  {
    hide AtRate, Times;
    AtRateIsProduct(a, p);
    AtRateIsProduct(b, p);
    AtRateIsProduct(b, q);
    TimesAtLeast(p, b, a);
    TimesAtLeast(b, q, p);
  }

  lemma ConvertKeepsUncrossed(book: Book, bidRate: Pos, askRate: Pos)
    requires Uncrossed(book) && bidRate <= askRate
    ensures Uncrossed(Convert(book, bidRate, askRate))
  {
    hide NoBetterThan, Scale, AtRate;
    RatesOrdered(book.bidPrice, book.askPrice, bidRate, askRate);
    ScaledNoBetter(Bid, book.bidPrice, book.bids, bidRate);
    ScaledNoBetter(Ask, book.askPrice, book.asks, askRate);
  }

  /** Both conversions keep books uncrossed, so that neither can create a gain in both directions. */
  lemma NoTwoWayGainAfterConversion(
    a: Book, aFee: real, b: Book, bFee: real, notional: real, usdKrw: Option<Pos>, quote: Option<Book>)
    requires Uncrossed(a) && Uncrossed(b) && (quote.Some? ==> Uncrossed(quote.value)) && aFee >= 0.0 && bFee >= 0.0
    ensures forall c :: Some(c) in {ToKrwBook(b, usdKrw), ToKrwBookWithQuoteBook(b, quote)} ==>
              && EdgeBetween(c, bFee, c, bFee, notional) <= 0.0
              && !(EdgeBetween(a, aFee, c, bFee, notional) > 0.0 && EdgeBetween(c, bFee, a, aFee, notional) > 0.0)
  {
    hide EdgeBetween, Convert, NoBetterThan;
    if b.venue.Binance? && usdKrw.Some? {
      ConvertKeepsUncrossed(b, usdKrw.value, usdKrw.value);
    }
    if b.venue.Binance? && quote.Some? {
      ConvertKeepsUncrossed(b, quote.value.bidPrice, quote.value.askPrice);
    }
    forall c | Some(c) in {ToKrwBook(b, usdKrw), ToKrwBookWithQuoteBook(b, quote)}
      ensures EdgeBetween(c, bFee, c, bFee, notional) <= 0.0
      ensures !(EdgeBetween(a, aFee, c, bFee, notional) > 0.0 && EdgeBetween(c, bFee, a, aFee, notional) > 0.0)
    {
      SelfEdgeIsNotPositive(c, bFee, bFee, notional);
      NoTwoWayGain(a, aFee, c, bFee, notional);
    }
  }

  /** Walking a converted side for a KRW notional is walking the original side for that notional in USDT. */
  lemma ConvertedPrice(levels: seq<Level>, best: Pos, q: Pos, notional: real)
    ensures ExecutablePrice(Scale(levels, q), notional, AtRate(best, q))
         == Times(q, ExecutablePrice(levels, notional / q, best))
  {
    hide Walk, Scale, Times, AtRate;
    SizeTimesPrice(notional, q);
    AtRateIsProduct(best, q);
    AverageScales(levels, q, notional / q);
  }

  lemma {:induction false} TotalScales(levels: seq<Level>, q: Pos)
    ensures Total(Scale(levels, q)) == Times(q, Total(levels))
  {
    hide Times, ScaleLevel, Notional;
    TimesZero(q);
    if levels != [] {
      TotalScales(levels[1..], q);
      NotionalScales(levels[0], q);
      TimesSum(q, Notional(levels[0]), Total(levels[1..]));
      assert Scale(levels, q)[1..] == Scale(levels[1..], q);
    }
  }

  lemma QuotientsReverse(n: real, a: Pos, b: Pos)
    requires n >= 0.0 && a <= b
    ensures n / b <= n / a
  {
    hide Times;
    SizeTimesPrice(n, a);
    SizeTimesPrice(n, b);
    SizeSign(n, b);
    var x := n / b;
    TimesCommutes(a, x);
    TimesCommutes(b, x);
    TimesAtLeast(x, b, a);
    CancelFactor(a, x, n / a);
  }

  /** A larger order is never a smaller size. */
  lemma WalkSizeGrows(levels: seq<Level>, n1: real, n2: real)
    requires n1 <= n2
    ensures Walk(levels, n1).size <= Walk(levels, n2).size
  {
    hide Walk;
    ExtraUnitsCost(Ask, 0.0, levels, n1, n2);
  }

  lemma FractionsGrow(n1: real, s1: Pos, n2: real, s2: Pos)
    requires 0.0 <= n1 <= n2 && s1 >= s2
    ensures n1 / s1 <= n2 / s2
  {
    QuotientsReverse(n1, s2, s1);
    SizesSubtract(n2, n1, s2);
    SizeSign(n2 - n1, s2);
  }

  /** Converting a side at a higher rate never lowers its executable price, sorted or not: the same KRW buys no
      more units, and no less KRW is there to be spent. */
  lemma HigherRateHigherPrice(levels: seq<Level>, best: Pos, q1: Pos, q2: Pos, notional: real)
    requires q1 <= q2 && notional >= 0.0
    ensures ExecutablePrice(Scale(levels, q1), notional, AtRate(best, q1))
         <= ExecutablePrice(Scale(levels, q2), notional, AtRate(best, q2))
  {
    hide Walk, Scale, Times, AtRate;
    ConvertedWalk(levels, q1, notional);
    ConvertedWalk(levels, q2, notional);
    TotalNonNegative(levels);
    RatesGrow(0.0, q1, Total(levels));
    TimesZero(Total(levels));
    RatesGrow(q1, q2, Total(levels));
    QuotientsReverse(notional, q1, q2);
    WalkSizeGrows(levels, notional / q2, notional / q1);
    WalkConsumes(Scale(levels, q1), notional);
    WalkConsumes(Scale(levels, q2), notional);
    var w1, w2 := Walk(Scale(levels, q1), notional), Walk(Scale(levels, q2), notional);
    if w1.size > 0.0 {
      FractionsGrow(w1.notional, w1.size, w2.notional, w2.size);
    } else {
      RatesOrdered(best, best, q1, q2);
    }
  }

  lemma ConvertedWalk(levels: seq<Level>, q: Pos, notional: real)
    ensures Walk(Scale(levels, q), notional).size == Walk(levels, notional / q).size
    ensures Walk(Scale(levels, q), notional).notional == Min(Max(notional, 0.0), Times(q, Total(levels)))
  {
    hide Walk, Scale, Times;
    SizeTimesPrice(notional, q);
    WalkScales(levels, q, notional / q);
    WalkConsumes(Scale(levels, q), notional);
    TotalScales(levels, q);
  }

  lemma RatesGrow(q1: real, q2: real, t: real)
    requires q1 <= q2 && t >= 0.0
    ensures Times(q1, t) <= Times(q2, t)
  {
    hide Times;
    TimesAtLeast(t, q2, q1);
    TimesCommutes(q1, t);
    TimesCommutes(q2, t);
  }

  /** Selling lower and buying higher never raises the edge. */
  lemma WorsePricesWorseEdge(sell1: real, buy1: real, sell2: real, buy2: real, sellFee: real, buyFee: real)
    requires 0.0 <= sell1 <= sell2 && 0.0 < buy2 <= buy1 && 0.0 <= buyFee && sellFee <= 1.0
    ensures NetEdgeBps(sell1, sellFee, buy1, buyFee) <= NetEdgeBps(sell2, sellFee, buy2, buyFee)
  {
    Products(buy1, 1.0 + buyFee);
    Products(buy2, 1.0 + buyFee);
    RatesGrow(buy2, buy1, 1.0 + buyFee);
    RatesGrow(sell1, sell2, 1.0 - sellFee);
    RatesGrow(0.0, sell1, 1.0 - sellFee);
    FractionsGrow(sell1 * (1.0 - sellFee), buy1 * (1.0 + buyFee), sell2 * (1.0 - sellFee), buy2 * (1.0 + buyFee));
  }

  /** Converting through a quote book is conservative: in either direction the edge is no better than at any
      single rate between the quote's bid and ask, for any levels, and for fees of at most everything. */
  lemma QuoteBookIsConservative(a: Book, aFee: real, b: Book, bFee: real, quote: Book, rate: Pos, notional: real)
    requires quote.bidPrice <= rate <= quote.askPrice && notional >= 0.0
    requires 0.0 <= aFee <= 1.0 && 0.0 <= bFee <= 1.0 && b.venue.Binance?
    ensures var viaQuote, viaRate := ToKrwBookWithQuoteBook(b, Some(quote)).value, ToKrwBook(b, Some(rate)).value;
            && EdgeBetween(a, aFee, viaQuote, bFee, notional) <= EdgeBetween(a, aFee, viaRate, bFee, notional)
            && EdgeBetween(viaQuote, bFee, a, aFee, notional) <= EdgeBetween(viaRate, bFee, a, aFee, notional)
  {
    hide NetEdgeBps, ExecutablePrice, Scale, AtRate;
    HigherRateHigherPrice(b.bids, b.bidPrice, quote.bidPrice, rate, notional);
    HigherRateHigherPrice(b.asks, b.askPrice, rate, quote.askPrice, notional);
    var viaQuote, viaRate := Convert(b, quote.bidPrice, quote.askPrice), Convert(b, rate, rate);
    PricesPositive(a, notional);
    PricesPositive(viaQuote, notional);
    PricesPositive(viaRate, notional);
    WorsePricesWorseEdge(ExecutableBid(a, notional), ExecutableAsk(viaQuote, notional),
                         ExecutableBid(a, notional), ExecutableAsk(viaRate, notional), aFee, bFee);
    WorsePricesWorseEdge(ExecutableBid(viaQuote, notional), ExecutableAsk(a, notional),
                         ExecutableBid(viaRate, notional), ExecutableAsk(a, notional), bFee, aFee);
  }

  lemma PricesPositive(book: Book, notional: real)
    ensures ExecutableBid(book, notional) > 0.0 && ExecutableAsk(book, notional) > 0.0
  {
    ExecutablePricePositive(book.bids, notional, book.bidPrice);
    ExecutablePricePositive(book.asks, notional, book.askPrice);
  }

  /** The edge does not depend on the currency: converting both books at one rate, and the notional with them,
      leaves it unchanged. */
  lemma EdgeIsCurrencyFree(a: Book, aFee: real, b: Book, bFee: real, q: Pos, notional: real)
    requires aFee >= 0.0 && bFee >= 0.0
    ensures EdgeBetween(Convert(a, q, q), aFee, Convert(b, q, q), bFee, Times(q, notional))
         == EdgeBetween(a, aFee, b, bFee, notional)
  {
    hide NetEdgeBps, ExecutablePrice, Scale, AtRate, Times;
    UndoRate(q, notional);
    ConvertedPrice(a.bids, a.bidPrice, q, Times(q, notional));
    ConvertedPrice(b.asks, b.askPrice, q, Times(q, notional));
    PricesPositive(b, notional);
    EdgeScales(ExecutableBid(a, notional), aFee, ExecutableAsk(b, notional), bFee, q);
  }

  lemma UndoRate(q: Pos, n: real)
    ensures Times(q, n) / q == n
  {
  }

  lemma EdgeScales(sell: real, sellFee: real, buy: Pos, buyFee: real, q: Pos)
    requires buyFee >= 0.0
    ensures Times(q, buy) > 0.0
    ensures NetEdgeBps(Times(q, sell), sellFee, Times(q, buy), buyFee) == NetEdgeBps(sell, sellFee, buy, buyFee)
  {
    Products(q, buy);
    Products(buy, 1.0 + buyFee);
    TimesAssociates(q, sell, 1.0 - sellFee);
    TimesAssociates(q, buy, 1.0 + buyFee);
    Products(q, buy * (1.0 + buyFee));
    QuotientScales(sell * (1.0 - sellFee), buy * (1.0 + buyFee), q);
  }

  /** The two conversions agree exactly when the quote has no spread and sits at the rate. */
  lemma ConversionsAgree(b: Book, quote: Book, rate: Pos)
    requires b.venue.Binance?
    ensures ToKrwBook(b, Some(rate)) == ToKrwBookWithQuoteBook(b, Some(quote))
       <==> quote.bidPrice == rate == quote.askPrice
  {
    hide Scale;
    FactorCancels(b.bidPrice, rate, quote.bidPrice);
    FactorCancels(b.askPrice, rate, quote.askPrice);
  }

  lemma FactorCancels(p: Pos, x: real, y: real)
    ensures p * x == p * y <==> x == y
  {
    CancelFactor(p, x, y);
    CancelFactor(p, y, x);
    assert Times(p, x) == p * x && Times(p, y) == p * y;
  }
}
