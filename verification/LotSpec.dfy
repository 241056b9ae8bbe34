/** FIFO matching of fills into closed trades, and the marks of open lots, as in
    `src/cli/analyze-trade-paths.ts`. */
module LotSpec {
  import opened Basics

  datatype Side = BuySide | SellSide | OtherSide

  datatype Fill = Fill(side: Side, market: string, quantity: real, quoteKrw: real, feeKrw: real, at: int)

  /** An open lot. `serial` numbers the buys; `marks` counts the snapshots seen. */
  datatype Lot = Lot(
    serial: nat, market: string, entryAt: int,
    quantity: real, costKrw: real, entryQuoteKrw: real, entryFeeKrw: real,
    maxKrw: real, minKrw: real, maxBps: real, minBps: real, marks: nat)

  /** A closed trade, with the amounts the matching loop allocated to it. */
  datatype Closed = Closed(
    serial: nat, market: string, entryAt: int, exitAt: int,
    quantity: real, costKrw: real, entryQuoteKrw: real, soldQuoteKrw: real, soldFeeKrw: real, realizedKrw: real,
    maxKrw: real, minKrw: real, maxBps: real, minBps: real, marks: nat, gaveBackPositiveMfe: bool)

  /** The history of a buy: what was bought, and the bids its lot has been marked with. */
  datatype Origin = Origin(quantity: real, costKrw: real, quoteKrw: real, feeKrw: real, bids: seq<real>)

  /** Open lots oldest first, closed trades in closing order, lots retired as dust, and one origin per buy. */
  datatype Book = Book(lots: seq<Lot>, closed: seq<Closed>, retired: seq<Lot>, origins: seq<Origin>)

  datatype Event = Mark(market: string, bid: real) | Trade(fill: Fill)

  const DUST := 0.000000000001
  const EMPTY_BOOK := Book([], [], [], [])

  function ReturnBps(pnlKrw: real, costKrw: real): real {
    if costKrw > 0.0 then pnlKrw / costKrw * 10_000.0 else 0.0
  }

  function OpenLot(fill: Fill, serial: nat): Lot {
    var cost := fill.quoteKrw + fill.feeKrw;
    Lot(serial, fill.market, fill.at, fill.quantity, cost, fill.quoteKrw, fill.feeKrw,
        -fill.feeKrw, -fill.feeKrw, ReturnBps(-fill.feeKrw, cost), ReturnBps(-fill.feeKrw, cost), 0)
  }

  predicate Touches(lot: Lot, market: string) {
    lot.market == market && lot.quantity > 0.0
  }

  /** `updateMark`: the lot's running extremes, in KRW and in basis points. */
  function Marked(lot: Lot, market: string, bid: real): Lot {
    if !Touches(lot, market) then lot
    else
      var pnl := lot.quantity * bid - lot.costKrw;
      var bps := ReturnBps(pnl, lot.costKrw);
      lot.(maxKrw := Max(lot.maxKrw, pnl), minKrw := Min(lot.minKrw, pnl),
           maxBps := Max(lot.maxBps, bps), minBps := Min(lot.minBps, bps), marks := lot.marks + 1)
  }

  function MarkedLots(lots: seq<Lot>, market: string, bid: real): seq<Lot> {
    seq(|lots|, i requires 0 <= i < |lots| => Marked(lots[i], market, bid))
  }

  predicate TouchesSerial(lots: seq<Lot>, market: string, serial: nat) {
    exists i :: 0 <= i < |lots| && lots[i].serial == serial && Touches(lots[i], market)
  }

  function ApplyMark(book: Book, market: string, bid: real): Book {
    book.(lots := MarkedLots(book.lots, market, bid),
          origins := seq(|book.origins|, s requires 0 <= s < |book.origins| =>
            if TouchesSerial(book.lots, market, s) then book.origins[s].(bids := book.origins[s].bids + [bid])
            else book.origins[s]))
  }

  /** The share of `whole` that `part` is, nothing of an empty whole. */
  function Fraction(part: real, whole: real): real {
    if whole > 0.0 then part / whole else 0.0
  }

  /** The part of the head lot that a sell with `remaining` left closes. */
  function ClosePart(lot: Lot, fill: Fill, remaining: real): Closed {
    var closed := Min(lot.quantity, remaining);
    var lotFraction := Fraction(closed, lot.quantity);
    var fillFraction := Fraction(closed, fill.quantity);
    var cost := lot.costKrw * lotFraction;
    var quote := fill.quoteKrw * fillFraction;
    var fee := fill.feeKrw * fillFraction;
    var realized := quote - fee - cost;
    Closed(lot.serial, lot.market, lot.entryAt, fill.at, closed, cost, lot.entryQuoteKrw * lotFraction,
           quote, fee, realized, lot.maxKrw * lotFraction, lot.minKrw * lotFraction, lot.maxBps, lot.minBps, lot.marks,
           realized < 0.0 && lot.maxKrw * lotFraction > 0.0)
  }

  /** What is left of the lot; the entry fee and the basis-point marks stay as they are. */
  function Rest(lot: Lot, c: Closed): Lot {
    lot.(quantity := lot.quantity - c.quantity, costKrw := lot.costKrw - c.costKrw,
         entryQuoteKrw := lot.entryQuoteKrw - c.entryQuoteKrw,
         maxKrw := lot.maxKrw - c.maxKrw, minKrw := lot.minKrw - c.minKrw)
  }

  predicate Matches(book: Book, fill: Fill, remaining: real) {
    remaining > DUST && book.lots != [] && book.lots[0].market == fill.market
  }

  /** One pass of the matching loop. */
  function MatchHead(book: Book, fill: Fill, remaining: real): Book
    requires Matches(book, fill, remaining)
  {
    var c := ClosePart(book.lots[0], fill, remaining);
    var rest := Rest(book.lots[0], c);
    if rest.quantity <= DUST then
      book.(lots := book.lots[1..], closed := book.closed + [c], retired := book.retired + [rest])
    else
      book.(lots := [rest] + book.lots[1..], closed := book.closed + [c])
  }

  /** The matching loop; it ends because a pass either removes the head lot or exhausts the sell. */
  function MatchSell(book: Book, fill: Fill, remaining: real): (r: (Book, real))
    ensures !Matches(r.0, fill, r.1)
    ensures book.closed <= r.0.closed
    decreases |book.lots|, if remaining > DUST then 1 else 0
  {
    if Matches(book, fill, remaining) then
      MatchSell(MatchHead(book, fill, remaining), fill, remaining - Min(book.lots[0].quantity, remaining))
    else (book, remaining)
  }

  function ApplyFill(book: Book, fill: Fill): Book {
    match fill.side
    case BuySide =>
      book.(lots := book.lots + [OpenLot(fill, |book.origins|)],
            origins := book.origins
              + [Origin(fill.quantity, fill.quoteKrw + fill.feeKrw, fill.quoteKrw, fill.feeKrw, [])])
    case SellSide => MatchSell(book, fill, fill.quantity).0
    case OtherSide => book
  }

  function Apply(book: Book, e: Event): Book {
    match e
    case Mark(market, bid) => ApplyMark(book, market, bid)
    case Trade(fill) => ApplyFill(book, fill)
  }

  function BookAfter(events: seq<Event>): Book {
    if events == [] then EMPTY_BOOK
    else Apply(BookAfter(events[..|events| - 1]), events[|events| - 1])
  }
}
