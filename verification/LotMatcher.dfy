/** The mutable queue of open trades: `updateMark` and `processFill` overwrite its elements in place. */
module LotMatcher {
  import opened Basics
  import opened LotSpec

  class OpenTrade {
    const serial: nat
    const market: string
    const entryAt: int
    const entryFeeKrw: real
    var quantity: real
    var costKrw: real
    var entryQuoteKrw: real
    var maxKrw: real
    var minKrw: real
    var maxBps: real
    var minBps: real
    var marks: nat

    constructor (lot: Lot)
      ensures View() == lot
    {
      serial, market, entryAt, entryFeeKrw := lot.serial, lot.market, lot.entryAt, lot.entryFeeKrw;
      quantity, costKrw, entryQuoteKrw := lot.quantity, lot.costKrw, lot.entryQuoteKrw;
      maxKrw, minKrw, maxBps, minBps, marks := lot.maxKrw, lot.minKrw, lot.maxBps, lot.minBps, lot.marks;
    }

    ghost function View(): Lot
      reads this
    {
      Lot(serial, market, entryAt, quantity, costKrw, entryQuoteKrw, entryFeeKrw, maxKrw, minKrw, maxBps, minBps, marks)
    }

    method UpdateMark(market: string, bid: real)
      modifies this
      ensures View() == Marked(old(View()), market, bid)
    {
      if market != this.market || quantity <= 0.0 {
        return;
      }
      var pnl := quantity * bid - costKrw;
      var bps := if costKrw > 0.0 then pnl / costKrw * 10_000.0 else 0.0;
      maxKrw := Max(maxKrw, pnl);
      minKrw := Min(minKrw, pnl);
      maxBps := Max(maxBps, bps);
      minBps := Min(minBps, bps);
      marks := marks + 1;
    }

    /** Closes as much as `remaining` allows and keeps the rest. */
    method Close(fill: Fill, remaining: real) returns (c: Closed)
      modifies this
      ensures c == ClosePart(old(View()), fill, remaining)
      ensures View() == Rest(old(View()), c)
    {
      hide Fraction;
      var closed := Min(quantity, remaining);
      var lotFraction := Fraction(closed, quantity);
      var fillFraction := Fraction(closed, fill.quantity);
      var cost := costKrw * lotFraction;
      var entryQuote := entryQuoteKrw * lotFraction;
      var quote := fill.quoteKrw * fillFraction;
      var fee := fill.feeKrw * fillFraction;
      var realized := quote - fee - cost;
      var maxPart, minPart := maxKrw * lotFraction, minKrw * lotFraction;
      c := Closed(serial, market, entryAt, fill.at, closed, cost, entryQuote, quote, fee, realized,
                  maxPart, minPart, maxBps, minBps, marks, realized < 0.0 && maxPart > 0.0);
      quantity := quantity - closed;
      costKrw := costKrw - cost;
      entryQuoteKrw := entryQuoteKrw - entryQuote;
      maxKrw := maxKrw - maxPart;
      minKrw := minKrw - minPart;
    }
  }

  ghost function Views(trades: seq<OpenTrade>): seq<Lot>
    reads trades
  {
    seq(|trades|, i requires 0 <= i < |trades| reads trades => trades[i].View())
  }

  ghost predicate Distinct(trades: seq<OpenTrade>) {
    forall i, j :: 0 <= i < j < |trades| ==> trades[i] != trades[j]
  }

  class LotMatcher {
    var openTrades: seq<OpenTrade>
    var closedTrades: seq<Closed>
    var buys: nat
    ghost var retired: seq<Lot>
    ghost var origins: seq<Origin>

    ghost predicate Valid()
      reads this
    {
      Distinct(openTrades) && buys == |origins|
    }

    ghost function View(): Book
      reads this, openTrades
    {
      Book(Views(openTrades), closedTrades, retired, origins)
    }

    constructor ()
      ensures Valid() && View() == EMPTY_BOOK
    {
      openTrades, closedTrades, buys := [], [], 0;
      retired, origins := [], [];
    }

    /** Marks every open trade with one snapshot. */
    method UpdateMarks(market: string, bid: real)
      requires Valid()
      modifies `origins, openTrades
      ensures Valid()
      ensures View() == ApplyMark(old(View()), market, bid)
    {
      ghost var before := Views(openTrades);
      ghost var marked := ApplyMark(View(), market, bid).origins;
      origins := marked;
      for i := 0 to |openTrades|
        invariant origins == marked
        invariant forall j :: 0 <= j < i ==> openTrades[j].View() == Marked(before[j], market, bid)
        invariant forall j :: i <= j < |openTrades| ==> openTrades[j].View() == before[j]
      {
        openTrades[i].UpdateMark(market, bid);
      }
      assert Views(openTrades) == MarkedLots(before, market, bid);
    }

    /** Opens a lot for a buy, or closes lots first in, first out for a sell. */
    method ProcessFill(fill: Fill)
      requires Valid()
      modifies this, openTrades
      ensures Valid()
      ensures View() == ApplyFill(old(View()), fill)
      ensures forall t :: t in openTrades ==> t in old(openTrades) || fresh(t)
    {
      if fill.side.BuySide? {
        OpenFromBuy(fill);
      } else if fill.side.SellSide? {
        CloseFromSell(fill);
      }
    }

    method OpenFromBuy(fill: Fill)
      requires Valid() && fill.side.BuySide?
      modifies this
      ensures Valid()
      ensures View() == ApplyFill(old(View()), fill)
      ensures forall t :: t in openTrades ==> t in old(openTrades) || fresh(t)
    {
      ghost var before := openTrades;
      var trade := new OpenTrade(OpenLot(fill, buys));
      openTrades := openTrades + [trade];
      buys := buys + 1;
      origins := origins + [Origin(fill.quantity, fill.quoteKrw + fill.feeKrw, fill.quoteKrw, fill.feeKrw, [])];
      assert Views(openTrades) == old(Views(before)) + [trade.View()];
    }

    method CloseFromSell(fill: Fill)
      requires Valid() && fill.side.SellSide?
      modifies this, openTrades
      ensures Valid()
      ensures View() == ApplyFill(old(View()), fill)
      ensures forall t :: t in openTrades ==> t in old(openTrades)
    {
      ghost var start := View();
      var remaining := fill.quantity;
      while remaining > DUST && |openTrades| > 0
        invariant Valid()
        invariant forall t :: t in openTrades ==> t in old(openTrades)
        invariant MatchSell(View(), fill, remaining) == MatchSell(start, fill, fill.quantity)
        decreases |openTrades|, if remaining > DUST then 1 else 0
      {
        if openTrades[0].market != fill.market {
          break;
        }
        assert openTrades[0] in openTrades;
        remaining := CloseHead(fill, remaining);
      }
    }

    /** One pass of the matching loop. */
    method CloseHead(fill: Fill, remaining: real) returns (left: real)
      requires Valid() && Matches(View(), fill, remaining)
      modifies `openTrades, `closedTrades, `retired, openTrades[0]
      ensures Valid()
      ensures View() == MatchHead(old(View()), fill, remaining)
      ensures left == remaining - Min(old(View()).lots[0].quantity, remaining)
      ensures openTrades == old(openTrades) || openTrades == old(openTrades)[1..]
      ensures |openTrades| < |old(openTrades)| || left <= DUST
    {
      ghost var before := Views(openTrades);
      var trade := openTrades[0];
      var c := trade.Close(fill, remaining);
      closedTrades := closedTrades + [c];
      left := remaining - c.quantity;
      assert Views(openTrades[1..]) == before[1..];
      if trade.quantity <= DUST {
        retired := retired + [trade.View()];
        openTrades := openTrades[1..];
      } else {
        assert Views(openTrades) == [trade.View()] + before[1..];
      }
    }
  }
}
