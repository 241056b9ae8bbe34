/** Multiplication and division of reals in small steps. */
module RealArithmetic {

  lemma Products(a: real, b: real)
    requires a > 0.0 && b > 0.0
    ensures a * b > 0.0
  {
  }

  /** Multiplication under a name, so that most steps below need not look into it. */
  function Times(a: real, b: real): real {
    a * b
  }

  lemma TimesAtLeast(q: real, a: real, b: real)
    requires q >= 0.0 && a >= b
    ensures Times(q, a) >= Times(q, b)
  {
    assert q * (a - b) >= 0.0;
  }

  lemma TimesZero(a: real)
    ensures Times(a, 0.0) == 0.0 == Times(0.0, a)
  {
  }

  lemma TimesSum(p: real, s: real, t: real)
    ensures Times(p, s + t) == Times(p, s) + Times(p, t)
    ensures Times(p, s - t) == Times(p, s) - Times(p, t)
  {
  }

  lemma TimesCommutes(a: real, b: real)
    ensures Times(a, b) == Times(b, a)
  {
  }

  lemma TimesAssociates(a: real, b: real, c: real)
    ensures Times(a, Times(b, c)) == Times(Times(a, b), c)
  {
  }

  lemma CancelFactor(q: real, a: real, b: real)
    requires q > 0.0
    ensures Times(q, a) <= Times(q, b) <==> a <= b
  {
    if a > b {
      assert q * (a - b) > 0.0;
    } else {
      TimesAtLeast(q, b, a);
    }
  }

  lemma PositiveQuotient(a: real, b: real)
    requires b > 0.0
    ensures a >= 0.0 ==> a / b >= 0.0
    ensures a > 0.0 ==> a / b > 0.0
  {
  }

  lemma QuotientScales(x: real, y: real, f: real)
    requires y > 0.0 && f > 0.0
    ensures y * f > 0.0
    ensures (x * f) / (y * f) == x / y
  {
  }

  lemma RatioAboveOne(x: real, y: real)
    requires y > 0.0
    ensures x / y > 1.0 <==> x > y
  {
    var r := x / y;
    assert r * y == x;
    if r > 1.0 {
      assert (r - 1.0) * y > 0.0;
    } else {
      assert (1.0 - r) * y >= 0.0;
    }
  }

  lemma SignsAgree(a: real, b: real)
    requires b > 0.0
    ensures a * b > 0.0 <==> a > 0.0
  {
  }

  /** What a notional `n` in a position makes between two prices after a fee: its share of the price change less the
      fee, and with a positive notional a gain iff the price has risen by more than the fee. */
  lemma NetResult(n: real, fee: real, from: real, to: real)
    requires from > 0.0
    ensures var pnl := n * (to / from - 1.0 - fee);
            && (pnl + n * fee) * from == n * (to - from)
            && (n > 0.0 ==> (pnl > 0.0 <==> to > from * (1.0 + fee)))
  {
    var x := to / from;
    var net := x - 1.0 - fee;
    assert to == x * from;
    assert to - from * (1.0 + fee) == net * from;
    SignsAgree(net, from);
    if n > 0.0 {
      SignsAgree(net, n);
    }
    assert n * net + n * fee == n * (x - 1.0);
    assert (n * (x - 1.0)) * from == n * ((x - 1.0) * from);
  }
}
