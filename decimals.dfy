/** Exact decimal arithmetic as the bot uses Python's `Decimal`: values are exact reals,
    `x.quantize(step)` rounds to a multiple of `step` (exchange tick and step sizes are powers
    of ten), and division by zero raises. */
module Decimals {
  import opened Outcomes

  /** The two rounding modes the bot uses: the context default (half-even) and ROUND_UP. */
  datatype Rounding = HalfEven | Up

  predicate IsInt(r: real) {
    r.Floor as real == r
  }

  /** `r` rounded to an integer. HalfEven: the nearest integer, ties to the even one.
      Up: away from zero. */
  function RoundToInt(r: real, mode: Rounding): (n: int)
    ensures IsInt(r) ==> n as real == r
    ensures mode == HalfEven ==> -0.5 <= n as real - r <= 0.5
    ensures mode == HalfEven && (n as real - r == 0.5 || r - n as real == 0.5) ==> n % 2 == 0
    ensures mode == Up && r >= 0.0 ==> r <= n as real < r + 1.0
    ensures mode == Up && r < 0.0 ==> r - 1.0 < n as real <= r
  {
    var f := r.Floor;
    match mode
    case HalfEven =>
      var d := r - f as real;
      if d < 0.5 then f
      else if d > 0.5 then f + 1
      else if f % 2 == 0 then f else f + 1
    case Up =>
      if r < 0.0 || f as real == r then f else f + 1
  }

  lemma RoundToIntMonotone(r1: real, r2: real, mode: Rounding)
    requires r1 <= r2
    ensures RoundToInt(r1, mode) <= RoundToInt(r2, mode)
  {
  }

  /** `x` lies on the grid of multiples of `step`. */
  predicate OnGrid(x: real, step: real)
    requires step > 0.0
  {
    IsInt(x / step)
  }

  /** `x.quantize(step, rounding=mode)`: the multiple of `step` that `x / step` rounds to.
      Its properties are the lemmas below (bounds, grid, exactness, monotonicity). */
  function Quantize(x: real, step: real, mode: Rounding): real
    requires step > 0.0
  {
    RoundToInt(x / step, mode) as real * step
  }

  /** Half-even lands within half a step of `x`; ROUND_UP lands at or above a non-negative
      `x`, less than one step away. */
  lemma QuantizeBounds(x: real, step: real, mode: Rounding)
    requires step > 0.0
    ensures mode == HalfEven ==> x - step / 2.0 <= Quantize(x, step, mode) <= x + step / 2.0
    ensures mode == Up && x >= 0.0 ==> x <= Quantize(x, step, mode) < x + step
  {
    ScaleBounds(x, step, RoundToInt(x / step, mode), mode);
  }

  /** A quantized value is a multiple of the step. */
  lemma QuantizeOnGrid(x: real, step: real, mode: Rounding)
    requires step > 0.0
    ensures OnGrid(Quantize(x, step, mode), step)
  {
    var n := RoundToInt(x / step, mode);
    QuantizeDef(x, step, mode);
    MultipleOnGrid(n, step);
    assert Quantize(x, step, mode) == n as real * step;
  }

  /** A multiple of the step is left unchanged. */
  lemma QuantizeExact(x: real, step: real, mode: Rounding)
    requires step > 0.0 && OnGrid(x, step)
    ensures Quantize(x, step, mode) == x
  {
    ScaleBounds(x, step, RoundToInt(x / step, mode), mode);
  }

  lemma MultipleOnGrid(n: int, step: real)
    requires step > 0.0
    ensures OnGrid(n as real * step, step)
  {
    DivCancel(n as real, step);
    assert (n as real).Floor == n;
  }

  lemma DivCancel(a: real, step: real)
    requires step > 0.0
    ensures (a * step) / step == a
  {
    var y := (a * step) / step;
    assert y * step == a * step;
    assert (y - a) * step == 0.0;
  }

  lemma DivMonotone(x: real, y: real, step: real)
    requires step > 0.0 && x <= y
    ensures x / step <= y / step
  {
    var a, b := x / step, y / step;
    assert a * step == x && b * step == y;
    if a > b { MulStrict(b, a, step); }
  }

  /** Multiplying both sides by a non-negative factor keeps an inequality. */
  lemma MulMonotone(a: real, b: real, c: real)
    requires a <= b && c >= 0.0
    ensures a * c <= b * c
  {
    assert (b - a) * c >= 0.0;
  }

  lemma MulStrict(a: real, b: real, c: real)
    requires a < b && c > 0.0
    ensures a * c < b * c
  {
    assert (b - a) * c > 0.0;
  }

  lemma Distribute(a: real, x: real, y: real)
    ensures a * (x + y) == a * x + a * y
  {
  }

  /** Bounds on a product by a positive factor give bounds on the quotient. */
  lemma QuotientBetween(c: real, q: real, lo: real, hi: real)
    requires q > 0.0 && lo * q <= c <= hi * q
    ensures lo <= c / q <= hi
  {
    var p := c / q;
    assert p * q == c;
    if p < lo { MulStrict(p, lo, q); }
    if p > hi { MulStrict(hi, p, q); }
  }

  /** The bounds on `n` relative to `x / step` carried over to `n * step` relative to `x`. */
  lemma ScaleBounds(x: real, step: real, n: int, mode: Rounding)
    requires step > 0.0
    requires n == RoundToInt(x / step, mode)
    ensures mode == HalfEven ==> x - step / 2.0 <= n as real * step <= x + step / 2.0
    ensures mode == Up && x >= 0.0 ==> x <= n as real * step < x + step
    ensures IsInt(x / step) ==> n as real * step == x
  {
    if mode == HalfEven {
      ScaleWithin(x, step, n, -0.5, 0.5);
    }
    if mode == Up && x >= 0.0 {
      DivMonotone(0.0, x, step);
      ScaleWithin(x, step, n, 0.0, 1.0);
      ScaleStrict(x, step, n);
    }
    if IsInt(x / step) {
      ScaleWithin(x, step, n, 0.0, 0.0);
    }
  }

  /** `lo <= n - x / step <= hi` scaled by `step`. */
  lemma ScaleWithin(x: real, step: real, n: int, lo: real, hi: real)
    requires step > 0.0 && lo <= n as real - x / step <= hi
    ensures x + lo * step <= n as real * step <= x + hi * step
  {
    var d := n as real - x / step;
    assert n as real * step == x + d * step by {
      assert (x / step) * step == x;
    }
    MulMonotone(lo, d, step);
    MulMonotone(d, hi, step);
  }

  lemma ScaleStrict(x: real, step: real, n: int)
    requires step > 0.0 && n as real - x / step < 1.0
    ensures n as real * step < x + step
  {
    var d := n as real - x / step;
    assert n as real * step == x + d * step by {
      assert (x / step) * step == x;
    }
    MulStrict(d, 1.0, step);
  }

  lemma QuantizeMonotone(x: real, y: real, step: real, mode: Rounding)
    requires step > 0.0 && x <= y
    ensures Quantize(x, step, mode) <= Quantize(y, step, mode)
  {
    QuantizeMonotoneAux(x, y, step, mode, RoundToInt(x / step, mode), RoundToInt(y / step, mode));
    QuantizeDef(x, step, mode);
    QuantizeDef(y, step, mode);
  }

  lemma QuantizeMonotoneAux(x: real, y: real, step: real, mode: Rounding, nx: int, ny: int)
    requires step > 0.0 && x <= y
    requires nx == RoundToInt(x / step, mode) && ny == RoundToInt(y / step, mode)
    ensures nx as real * step <= ny as real * step
  {
    assert nx <= ny by {
      DivMonotone(x, y, step);
      RoundToIntMonotone(x / step, y / step, mode);
    }
    MulMonotone(nx as real, ny as real, step);
  }

  lemma QuantizeDef(x: real, step: real, mode: Rounding)
    requires step > 0.0
    ensures Quantize(x, step, mode) == RoundToInt(x / step, mode) as real * step
  {
  }

  lemma QuantizeNonNegative(x: real, step: real, mode: Rounding)
    requires step > 0.0 && x >= 0.0
    ensures Quantize(x, step, mode) >= 0.0
  {
    QuantizeMonotone(0.0, x, step, mode);
    assert OnGrid(0.0, step);
    QuantizeExact(0.0, step, mode);
  }

  /** Quantizing twice is quantizing once. */
  lemma QuantizeIdempotent(x: real, step: real, mode: Rounding, mode2: Rounding)
    requires step > 0.0
    ensures Quantize(Quantize(x, step, mode), step, mode2) == Quantize(x, step, mode)
  {
    QuantizeOnGrid(x, step, mode);
    QuantizeExact(Quantize(x, step, mode), step, mode2);
  }

  /** A grid point is its index times the step. */
  lemma GridIndex(x: real, step: real)
    requires step > 0.0 && OnGrid(x, step)
    ensures x == (x / step).Floor as real * step
  {
    assert (x / step) * step == x;
  }

  lemma GridSubtract(a: real, b: real, step: real)
    requires step > 0.0 && OnGrid(a, step) && OnGrid(b, step)
    ensures OnGrid(a - b, step)
  {
    var na, nb := (a / step).Floor, (b / step).Floor;
    GridIndex(a, step);
    GridIndex(b, step);
    var m := na - nb;
    assert a - b == m as real * step;
    MultipleOnGrid(m, step);
  }

  lemma GridAdd(a: real, b: real, step: real)
    requires step > 0.0 && OnGrid(a, step) && OnGrid(b, step)
    ensures OnGrid(a + b, step)
  {
    var na, nb := (a / step).Floor, (b / step).Floor;
    GridIndex(a, step);
    GridIndex(b, step);
    var m := na + nb;
    assert a + b == m as real * step;
    MultipleOnGrid(m, step);
  }

  lemma StepOnGrid(step: real)
    requires step > 0.0
    ensures OnGrid(step, step)
  {
    assert step / step == 1.0;
  }

  /** Two grid points closer than one step apart are equal. */
  lemma GridGap(a: real, b: real, step: real)
    requires step > 0.0 && OnGrid(a, step) && OnGrid(b, step) && a < b
    ensures a + step <= b
  {
    var na, nb := (a / step).Floor, (b / step).Floor;
    assert a == na as real * step && b == nb as real * step by {
      assert (a / step) * step == a;
      assert (b / step) * step == b;
    }
    assert na < nb by {
      if na >= nb { MulMonotone(nb as real, na as real, step); }
    }
    MulMonotone(1.0, (nb - na) as real, step);
  }

  /** Decimal division: `a / b` raises DivisionByZero for `b == 0 != a`, and the
      undefined `0 / 0` raises InvalidOperation. */
  function Divide(a: real, b: real): (r: Result<real>)
    ensures r.Success? <==> b != 0.0
    ensures r.Success? ==> r.value * b == a
    ensures r.Failure? ==> r.error == (if a == 0.0 then InvalidOperation else DivisionByZero)
  {
    if b == 0.0 then
      Failure(if a == 0.0 then InvalidOperation else DivisionByZero)
    else
      Success(a / b)
  }
}
