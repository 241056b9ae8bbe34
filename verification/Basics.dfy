/** Small shared vocabulary: optional values, error returns and real arithmetic helpers. */
module Basics {

  datatype Option<+T> = None | Some(value: T)

  datatype Result<+T, +E> = Ok(value: T) | Err(error: E)

  /** Prices, sizes and ratios that the loaders have already checked to be positive. */
  type Pos = r: real | r > 0.0 witness 1.0

  /** A price that may be divided by. */
  type NonZero = r: real | r != 0.0 witness 1.0

  function Min(a: real, b: real): real {
    if a <= b then a else b
  }

  function Max(a: real, b: real): real {
    if a >= b then a else b
  }

  /** The change from `previous` to `current` in basis points. */
  function Bps(current: real, previous: real): real {
    if previous > 0.0 then (current / previous - 1.0) * 10_000.0 else 0.0
  }

  /** A threshold on the change is a threshold on the price. */
  lemma BpsInPrices(current: real, previous: Pos, bps: real)
    ensures Bps(current, previous) >= bps <==> current >= previous * (1.0 + bps / 10_000.0)
    ensures Bps(current, previous) <= bps <==> current <= previous * (1.0 + bps / 10_000.0)
  {
    var ratio, level := current / previous, 1.0 + bps / 10_000.0;
    assert current == ratio * previous;
    assert Bps(current, previous) >= bps <==> ratio >= level;
    assert Bps(current, previous) <= bps <==> ratio <= level;
    if ratio > level {
      assert (ratio - level) * previous > 0.0;
    } else if ratio < level {
      assert (level - ratio) * previous > 0.0;
    }
  }

  function Abs(a: real): real {
    if a >= 0.0 then a else -a
  }

  function MinInt(a: int, b: int): int {
    if a <= b then a else b
  }

  function MaxInt(a: int, b: int): int {
    if a >= b then a else b
  }
}
