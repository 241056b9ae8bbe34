/** Which buy a lot is, which marks it has seen, and which sell closed it. */
module LotHistory {
  import opened Basics
  import opened LotSpec
  import opened LotProofs

  /** The buys, in order; a lot's serial is its index here. */
  function BuysOf(events: seq<Event>): seq<Fill> {
    if events == [] then []
    else
      var last := events[|events| - 1];
      BuysOf(events[..|events| - 1]) + (if last.Trade? && last.fill.side.BuySide? then [last.fill] else [])
  }

  /** The bids shown of the market of buy `s` since it was made. */
  function BidsSince(events: seq<Event>, s: nat): seq<real> {
    if events == [] then []
    else
      var init, last := events[..|events| - 1], events[|events| - 1];
      BidsSince(init, s)
      + (if last.Mark? && s < |BuysOf(init)| && BuysOf(init)[s].market == last.market then [last.bid] else [])
  }

  /** The sell that closed `c` named its market and its exit time. */
  ghost predicate SoldBy(events: seq<Event>, c: Closed) {
    exists k ::
      && 0 <= k < |events| && events[k].Trade? && events[k].fill.side.SellSide?
      && events[k].fill.market == c.market && events[k].fill.at == c.exitAt
  }

  ghost predicate LotLabelled(buys: seq<Fill>, lot: Lot) {
    && lot.serial < |buys|
    && lot.market == buys[lot.serial].market && lot.entryAt == buys[lot.serial].at
  }

  ghost predicate ClosedLabelled(buys: seq<Fill>, c: Closed) {
    && c.serial < |buys|
    && c.market == buys[c.serial].market && c.entryAt == buys[c.serial].at
  }

  ghost predicate OriginOf(o: Origin, buy: Fill) {
    && o.quantity == buy.quantity && o.quoteKrw == buy.quoteKrw && o.feeKrw == buy.feeKrw
    && o.costKrw == buy.quoteKrw + buy.feeKrw
  }

  /** Every lot and closed trade carries the market and time of its buy, and every origin its amounts. */
  ghost predicate Labelled(book: Book, buys: seq<Fill>) {
    && |book.origins| == |buys|
    && (forall i :: 0 <= i < |book.lots| ==> LotLabelled(buys, book.lots[i]))
    && (forall i :: 0 <= i < |book.closed| ==> ClosedLabelled(buys, book.closed[i]))
    && (forall s :: 0 <= s < |buys| ==> OriginOf(book.origins[s], buys[s]))
  }

  lemma MatchHeadLabelled(book: Book, buys: seq<Fill>, fill: Fill, remaining: real)
    requires Labelled(book, buys) && Matches(book, fill, remaining)
    ensures Labelled(MatchHead(book, fill, remaining), buys)
    ensures var c := ClosePart(book.lots[0], fill, remaining);
            && MatchHead(book, fill, remaining).closed == book.closed + [c]
            && c.market == fill.market && c.exitAt == fill.at
  {
    hide Fraction;
  }

  /** What a sell closes is of its market and leaves at its time. */
  lemma {:induction false} MatchSellLabelled(book: Book, buys: seq<Fill>, fill: Fill, remaining: real)
    requires Labelled(book, buys)
    ensures var after := MatchSell(book, fill, remaining).0;
            && Labelled(after, buys) && book.closed <= after.closed
            && forall i :: |book.closed| <= i < |after.closed| ==>
                 after.closed[i].market == fill.market && after.closed[i].exitAt == fill.at
    decreases |book.lots|, if remaining > DUST then 1 else 0
  {
    hide Labelled, Fraction;
    if Matches(book, fill, remaining) {
      MatchHeadLabelled(book, buys, fill, remaining);
      MatchSellLabelled(MatchHead(book, fill, remaining), buys, fill,
                        remaining - Min(book.lots[0].quantity, remaining));
    }
  }

  lemma BuyLabelled(book: Book, buys: seq<Fill>, fill: Fill)
    requires Labelled(book, buys) && fill.side.BuySide?
    ensures Labelled(ApplyFill(book, fill), buys + [fill])
  {
    hide ReturnBps;
  }

  lemma MarkLabelled(book: Book, buys: seq<Fill>, market: string, bid: real)
    requires Labelled(book, buys)
    ensures Labelled(ApplyMark(book, market, bid), buys)
  {
    hide ReturnBps;
  }

  /** Over any events, lots and closed trades are labelled by their buys, and closed trades by a sell. */
  lemma {:induction false} BooksAreLabelled(events: seq<Event>)
    ensures Labelled(BookAfter(events), BuysOf(events))
    ensures forall i :: 0 <= i < |BookAfter(events).closed| ==> SoldBy(events, BookAfter(events).closed[i])
  {
    hide Labelled, SoldBy, MatchSell;
    if events == [] {
      NothingLabelled();
    } else {
      var n := |events| - 1;
      var init, book, buys := events[..n], BookAfter(events[..n]), BuysOf(events[..n]);
      BooksAreLabelled(init);
      forall c | SoldBy(init, c) ensures SoldBy(events, c) {
        StillSold(events, c);
      }
      match events[n]
      case Mark(market, bid) =>
        assert buys + [] == buys;
        MarkLabelled(book, buys, market, bid);
      case Trade(fill) =>
        if fill.side.BuySide? {
          BuyLabelled(book, buys, fill);
        } else if fill.side.SellSide? {
          MatchSellLabelled(book, buys, fill, fill.quantity);
          SellAppends(events, book, fill);
        }
    }
  }

  lemma NothingLabelled()
    ensures Labelled(EMPTY_BOOK, [])
  {
  }

  lemma StillSold(events: seq<Event>, c: Closed)
    requires events != [] && SoldBy(events[..|events| - 1], c)
    ensures SoldBy(events, c)
  {
    var init := events[..|events| - 1];
    var k :| && 0 <= k < |init| && init[k].Trade? && init[k].fill.side.SellSide?
             && init[k].fill.market == c.market && init[k].fill.at == c.exitAt;
    assert events[k] == init[k];
  }

  lemma SellAppends(events: seq<Event>, book: Book, fill: Fill)
    requires events != [] && events[|events| - 1] == Trade(fill) && fill.side.SellSide?
    ensures forall c: Closed :: c.market == fill.market && c.exitAt == fill.at ==> SoldBy(events, c)
  {
  }

  // ---------------------------------------------------------------------------------------------
  // Marks

  /** The marks an open lot has seen are the bids of its market since its buy, each once. */
  ghost predicate SeenAll(book: Book, events: seq<Event>) {
    forall i :: 0 <= i < |book.lots| ==>
      && book.lots[i].serial < |book.origins|
      && book.origins[book.lots[i].serial].bids == BidsSince(events, book.lots[i].serial)
  }

  lemma {:induction false} NoBidsBefore(events: seq<Event>, s: nat)
    requires s >= |BuysOf(events)|
    ensures BidsSince(events, s) == []
  {
    if events != [] {
      NoBidsBefore(events[..|events| - 1], s);
    }
  }

  lemma MarkSeen(book: Book, events: seq<Event>)
    requires events != [] && events[|events| - 1].Mark?
    requires SeenAll(book, events[..|events| - 1]) && Labelled(book, BuysOf(events[..|events| - 1])) && WellFormed(book)
    ensures SeenAll(ApplyMark(book, events[|events| - 1].market, events[|events| - 1].bid), events)
  {
    hide ReturnBps, IsBest, IsWorst, BidsSince;
    var init, market, bid := events[..|events| - 1], events[|events| - 1].market, events[|events| - 1].bid;
    var after := ApplyMark(book, market, bid);
    forall i | 0 <= i < |after.lots|
      ensures after.lots[i].serial < |after.origins|
      ensures after.origins[after.lots[i].serial].bids == BidsSince(events, after.lots[i].serial)
    {
      var lot := book.lots[i];
      assert LotScaled(lot, book.origins[lot.serial]) && LotLabelled(BuysOf(init), lot);
      TouchedIffShown(book, i, market);
      BidsGrow(events, lot.serial);
      MarkedSerial(lot, market, bid);
    }
  }

  lemma MarkedSerial(lot: Lot, market: string, bid: real)
    ensures Marked(lot, market, bid).serial == lot.serial
  {
  }

  lemma BidsGrow(events: seq<Event>, s: nat)
    requires events != [] && events[|events| - 1].Mark?
    requires s < |BuysOf(events[..|events| - 1])|
    ensures var init, last := events[..|events| - 1], events[|events| - 1];
            BidsSince(events, s)
            == if BuysOf(init)[s].market == last.market then BidsSince(init, s) + [last.bid] else BidsSince(init, s)
  {
    var init := events[..|events| - 1];
    assert BidsSince(init, s) + [] == BidsSince(init, s);
  }

  lemma TouchedIffShown(book: Book, i: nat, market: string)
    requires WellFormed(book) && i < |book.lots|
    ensures TouchesSerial(book.lots, market, book.lots[i].serial) <==> book.lots[i].market == market
  {
    hide IsBest, IsWorst, ReturnBps;
    var lot := book.lots[i];
    assert LotScaled(lot, book.origins[lot.serial]);
    assert lot.quantity > 0.0;
    forall j | 0 <= j < |book.lots| && book.lots[j].serial == lot.serial ensures j == i {
    }
  }

  ghost predicate HasSerial(lots: seq<Lot>, serial: nat) {
    exists i :: 0 <= i < |lots| && lots[i].serial == serial
  }

  lemma {:induction false} SellKeepsSerials(book: Book, fill: Fill, remaining: real)
    ensures var after := MatchSell(book, fill, remaining).0;
            && after.origins == book.origins
            && forall i :: 0 <= i < |after.lots| ==> HasSerial(book.lots, after.lots[i].serial)
    decreases |book.lots|, if remaining > DUST then 1 else 0
  {
    hide Fraction;
    if Matches(book, fill, remaining) {
      var next := MatchHead(book, fill, remaining);
      SellKeepsSerials(next, fill, remaining - Min(book.lots[0].quantity, remaining));
      var after := MatchSell(book, fill, remaining).0;
      forall i | 0 <= i < |after.lots| ensures HasSerial(book.lots, after.lots[i].serial) {
        HeadKeepsSerials(book, fill, remaining, after.lots[i].serial);
      }
    } else {
      forall i | 0 <= i < |book.lots| ensures HasSerial(book.lots, book.lots[i].serial) {
      }
    }
  }

  lemma HeadKeepsSerials(book: Book, fill: Fill, remaining: real, serial: nat)
    requires Matches(book, fill, remaining) && HasSerial(MatchHead(book, fill, remaining).lots, serial)
    ensures HasSerial(book.lots, serial)
  {
    hide ClosePart;
    var next := MatchHead(book, fill, remaining);
    var i :| 0 <= i < |next.lots| && next.lots[i].serial == serial;
    if |next.lots| == |book.lots| {
      assert book.lots[i].serial == serial;
    } else {
      assert book.lots[i + 1].serial == serial;
    }
  }

  lemma TradeShowsNothing(events: seq<Event>, s: nat)
    requires events != [] && events[|events| - 1].Trade?
    ensures BidsSince(events, s) == BidsSince(events[..|events| - 1], s)
  {
    assert BidsSince(events[..|events| - 1], s) + [] == BidsSince(events[..|events| - 1], s);
  }

  lemma TradeSeen(book: Book, events: seq<Event>)
    requires events != [] && events[|events| - 1].Trade?
    requires SeenAll(book, events[..|events| - 1]) && Labelled(book, BuysOf(events[..|events| - 1]))
    ensures SeenAll(ApplyFill(book, events[|events| - 1].fill), events)
  {
    hide BidsSince, MatchSell, ReturnBps;
    var init, fill := events[..|events| - 1], events[|events| - 1].fill;
    var after := ApplyFill(book, fill);
    if fill.side.SellSide? {
      SellKeepsSerials(book, fill, fill.quantity);
    }
    NoBidsBefore(init, |book.origins|);
    forall i | 0 <= i < |after.lots|
      ensures after.lots[i].serial < |after.origins|
      ensures after.origins[after.lots[i].serial].bids == BidsSince(events, after.lots[i].serial)
    {
      TradeShowsNothing(events, after.lots[i].serial);
      if fill.side.SellSide? {
        assert HasSerial(book.lots, after.lots[i].serial);
      }
    }
  }

  lemma NothingSeen()
    ensures SeenAll(EMPTY_BOOK, [])
  {
  }

  /** Over any events with positive buys, the history of an open lot is exactly the bids shown of its market since its
      buy. */
  lemma {:induction false} EveryMarkIsSeen(events: seq<Event>)
    requires PositiveBuys(events)
    ensures SeenAll(BookAfter(events), events)
  {
    hide SeenAll, Labelled, WellFormed, ApplyMark, ApplyFill, BuysOf;
    if events == [] {
      NothingSeen();
    } else {
      var n := |events| - 1;
      var init := events[..n];
      assert forall i :: 0 <= i < n ==> init[i] == events[i];
      EveryMarkIsSeen(init);
      EveryBookIsWellFormed(init);
      BooksAreLabelled(init);
      if events[n].Mark? {
        MarkSeen(BookAfter(init), events);
      } else {
        TradeSeen(BookAfter(init), events);
      }
    }
  }
}
