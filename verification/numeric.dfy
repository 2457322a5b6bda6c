/** Real-number helpers standing in for JavaScript's `Math` functions. Numbers
    are exact reals: floating-point rounding is not modelled. */
module Numeric {

  /** `Math.min(a, b)`. */
  function Min(a: real, b: real): (r: real)
    ensures r <= a && r <= b && (r == a || r == b)
  {
    if a <= b then a else b
  }

  /** `Math.max(a, b)`. */
  function Max(a: real, b: real): (r: real)
    ensures r >= a && r >= b && (r == a || r == b)
  {
    if a >= b then a else b
  }

  /** `Math.round(x)`: the nearest integer, halves rounded up. */
  function Round(x: real): (r: int)
    ensures x - 0.5 < r as real <= x + 0.5
  {
    (x + 0.5).Floor
  }

  /** `x` has at most two decimals: a whole number of hundredths. */
  predicate TwoDecimals(x: real) {
    (x * 100.0).Floor as real == x * 100.0
  }

  /** `x.toFixed(2)` read back as a number, taken as rounding half up to two
      decimals. */
  function Round2(x: real): (r: real)
    ensures x - 0.005 < r <= x + 0.005
    ensures TwoDecimals(r)
    ensures 0.0 <= x ==> 0.0 <= r
    ensures 0.0 <= x <= 5.0 ==> 0.0 <= r <= 5.0
    ensures 0.0 <= x <= 100.0 ==> 0.0 <= r <= 100.0
  {
    Round(x * 100.0) as real / 100.0
  }

  /** At most one number with two decimals lies within half a hundredth of
      `x`, so Round2's contract fixes its result. */
  lemma TwoDecimalsUnique(x: real, a: real, b: real)
    requires TwoDecimals(a) && x - 0.005 < a <= x + 0.005
    requires TwoDecimals(b) && x - 0.005 < b <= x + 0.005
    ensures a == b
  {
    var i, j := (a * 100.0).Floor, (b * 100.0).Floor;
    assert i as real == a * 100.0 && j as real == b * 100.0;
    assert -1.0 < i as real - j as real < 1.0;
    assert i == j;
  }

  /** `Math.floor(x / d)` for integers, `d > 0`. */
  function FloorDiv(x: int, d: int): (r: int)
    requires d > 0
    ensures r * d <= x < (r + 1) * d
  {
    x / d
  }

  /** A mean of values in `[lo, hi]` stays in `[lo, hi]`. */
  lemma MeanBounded(sum: real, n: real, lo: real, hi: real)
    requires n > 0.0 && lo * n <= sum <= hi * n
    ensures lo <= sum / n <= hi
  {
    var m := sum / n;
    assert m * n == sum;
    assert (m - lo) * n == sum - lo * n >= 0.0;
    assert (hi - m) * n == hi * n - sum >= 0.0;
  }

  /** The sign of a product with a positive factor is the sign of the other. */
  lemma MulSign(a: real, b: real)
    requires b > 0.0
    ensures a * b > 0.0 <==> a > 0.0
    ensures a * b >= 0.0 <==> a >= 0.0
  {
  }

  /** `x / y` for a positive `y`, with the product that undoes it. */
  lemma QuotientOf(x: real, y: real) returns (q: real)
    requires y > 0.0
    ensures q == x / y && q * y == x
  {
    q := x / y;
  }

  /** The share `k / n` of a whole `n` lies in [0, 1] and is 1 only for `k == n`. */
  lemma Share(k: nat, n: nat)
    requires 0 < n && k <= n
    ensures 0.0 <= k as real / n as real <= 1.0
    ensures k as real / n as real == 1.0 <==> k == n
  {
    var q := QuotientOf(k as real, n as real);
    MulSign(q, n as real);
    assert (1.0 - q) * n as real == (n - k) as real;
    MulSign(1.0 - q, n as real);
  }

  /** What the model assumes of `Math.log10` and `Math.log`: they vanish at 1
      and are strictly increasing on the positive reals. */
  ghost predicate IsLogarithm(log: real -> real) {
    && log(1.0) == 0.0
    && forall x: real, y: real :: 0.0 < x < y ==> log(x) < log(y)
  }

  lemma LogPositive(log: real -> real, x: real)
    requires IsLogarithm(log)
    ensures x >= 1.0 ==> log(x) >= 0.0
    ensures x > 1.0 ==> log(x) > 0.0
  {
    if x > 1.0 {
      assert log(1.0) < log(x);
    }
  }

  lemma LogMonotone(log: real -> real, x: real, y: real)
    requires IsLogarithm(log)
    requires 0.0 < x <= y
    ensures log(x) <= log(y)
  {
    if x < y {
      assert log(x) < log(y);
    }
  }

  lemma LogNegative(log: real -> real, x: real)
    requires IsLogarithm(log)
    requires 0.0 < x < 1.0
    ensures log(x) < 0.0
  {
    assert log(x) < log(1.0);
  }

  /** A logarithm is zero only at 1, positive above it and negative below. */
  lemma LogSign(log: real -> real, x: real)
    requires IsLogarithm(log)
    ensures x > 0.0 ==> (log(x) == 0.0 <==> x == 1.0)
    ensures x > 0.0 ==> (log(x) > 0.0 <==> x > 1.0)
  {
    if x > 1.0 {
      LogPositive(log, x);
    } else if 0.0 < x < 1.0 {
      LogNegative(log, x);
    }
  }

  // ---------------------------------------------------------------------------
  // Numbers beyond the reals

  /** A JavaScript number: a real, `Infinity`, `-Infinity` or `NaN`. Zero is
      unsigned: the model has no `-0`. */
  datatype Ext = Finite(v: real) | PosInf | NegInf | NaN

  /** `x / y` for two reals: a division by zero gives an infinity signed like
      `x`, or `NaN` for `0 / 0`. */
  function Quotient(x: real, y: real): (r: Ext)
    ensures y != 0.0 ==> r == Finite(x / y)
    ensures r.PosInf? <==> y == 0.0 && x > 0.0
    ensures r.NegInf? <==> y == 0.0 && x < 0.0
    ensures r.NaN? <==> y == 0.0 && x == 0.0
  {
    if y != 0.0 then Finite(x / y)
    else if x > 0.0 then PosInf
    else if x < 0.0 then NegInf
    else NaN
  }

  /** `x / d` for a real `x`: dividing by an infinity gives 0. */
  function QuotientBy(x: real, d: Ext): (r: Ext)
    ensures d.Finite? ==> r == Quotient(x, d.v)
    ensures d.PosInf? || d.NegInf? ==> r == Finite(0.0)
    ensures d.NaN? ==> r.NaN?
  {
    match d
    case Finite(y) => Quotient(x, y)
    case PosInf => Finite(0.0)
    case NegInf => Finite(0.0)
    case NaN => NaN
  }

  /** `x * f` for a positive real factor `f`. */
  function Scale(x: Ext, f: real): (r: Ext)
    requires f > 0.0
    ensures x.Finite? <==> r.Finite?
    ensures x.Finite? ==> r.v == x.v * f
    ensures !x.Finite? ==> r == x
  {
    match x
    case Finite(a) => Finite(a * f)
    case _ => x
  }

  /** `a + b`: opposite infinities and `NaN` give `NaN`. */
  function Add(a: Ext, b: Ext): (r: Ext)
    ensures r.Finite? <==> a.Finite? && b.Finite?
    ensures r.Finite? ==> r.v == a.v + b.v
    ensures r.NaN? <==> a.NaN? || b.NaN? || (a.PosInf? && b.NegInf?) || (a.NegInf? && b.PosInf?)
    ensures r.PosInf? <==> (a.PosInf? && !b.NaN? && !b.NegInf?) || (b.PosInf? && !a.NaN? && !a.NegInf?)
  {
    match (a, b)
    case (Finite(x), Finite(y)) => Finite(x + y)
    case (NaN, _) => NaN
    case (_, NaN) => NaN
    case (PosInf, NegInf) => NaN
    case (NegInf, PosInf) => NaN
    case (PosInf, _) => PosInf
    case (_, PosInf) => PosInf
    case (NegInf, _) => NegInf
    case (_, NegInf) => NegInf
  }

  /** `Math.min(x, c)` for a real `c`: `NaN` wins, `Infinity` loses. */
  function MinWith(x: Ext, c: real): (r: Ext)
    ensures r.Finite? <==> x.Finite? || x.PosInf?
    ensures r.Finite? ==> r.v <= c
    ensures x.Finite? ==> r.v == Min(x.v, c)
    ensures x.PosInf? ==> r == Finite(c)
    ensures x.NegInf? <==> r.NegInf?
    ensures x.NaN? <==> r.NaN?
  {
    match x
    case Finite(a) => Finite(Min(a, c))
    case PosInf => Finite(c)
    case _ => x
  }

  /** `Math.log10(x)` or `Math.log(x)` for any real: `-Infinity` at 0 and
      `NaN` below. */
  function LogOf(log: real -> real, x: real): (r: Ext)
    ensures x > 0.0 ==> r == Finite(log(x))
    ensures r.NegInf? <==> x == 0.0
    ensures r.NaN? <==> x < 0.0
  {
    if x > 0.0 then Finite(log(x)) else if x == 0.0 then NegInf else NaN
  }
}
