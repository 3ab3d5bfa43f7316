/** Python's integer conversions, stated on exact values.

    The renderer uses `int(x)` on floats (which truncates toward zero) and
    `//` on integers (which floors).  Both are modelled on exact rationals; the
    float rounding that precedes `int(x)` in the Python code is not modelled. */
module Numeric {

  /** `int(x)`: truncation toward zero. */
  function Trunc(x: real): (n: int)
    ensures 0.0 <= x ==> n as real <= x < n as real + 1.0
    ensures x < 0.0 ==> n as real - 1.0 < x <= n as real
  {
    if x >= 0.0 then x.Floor else -((-x).Floor)
  }

  /** `a // b` for a positive divisor: the floor of the exact quotient.
      Dafny's `/` is Euclidean, which agrees with flooring when `b > 0`. */
  function FloorDiv(a: int, b: int): (q: int)
    requires b > 0
    ensures b * q <= a < b * q + b
  {
    a / b
  }

  function Max(a: int, b: int): (r: int)
    ensures r >= a && r >= b
    ensures r == a || r == b
  {
    if a >= b then a else b
  }

  function Min(a: int, b: int): (r: int)
    ensures r <= a && r <= b
    ensures r == a || r == b
  {
    if a <= b then a else b
  }

  /** `int(i / g)`-style truncating division of an integer by a positive
      integer, as `int()` applies it to the exact quotient. */
  function TruncDiv(a: int, g: int): (q: int)
    requires g > 0
    ensures q == Trunc(a as real / g as real)
    ensures 0 <= a ==> g * q <= a < g * q + g
    ensures a < 0 ==> g * q - g < a <= g * q
  {
    var q := if a >= 0 then a / g else -((-a) / g);
    QuotientIsTrunc(a, g, q);
    q
  }

  /** An integer that brackets the exact quotient the way `Trunc` does is
      `Trunc` of it. */
  lemma QuotientIsTrunc(a: int, g: int, q: int)
    requires g > 0
    requires 0 <= a ==> g * q <= a < g * q + g
    requires a < 0 ==> g * q - g < a <= g * q
    ensures q == Trunc(a as real / g as real)
  {
    if 0 <= a {
      FloorOfQuotient(a, g, q);
    } else {
      FloorOfQuotient(-a, g, -q);
      assert (-a) as real / g as real == -(a as real / g as real);
    }
  }

  /** The floor of an exact quotient, bracketed by integers. */
  lemma FloorOfQuotient(a: int, g: int, q: int)
    requires g > 0
    requires g * q <= a < g * q + g
    ensures q as real <= a as real / g as real < q as real + 1.0
  {
    var x := a as real / g as real;
    var gr := g as real;
    assert gr * x == a as real;
    assert (g * q) as real == gr * (q as real);
    assert (g * q + g) as real == gr * (q as real + 1.0);
    Unscale(x, gr, q as real, q as real + 1.0);
  }

  /** Dividing a bracket `c*lo <= c*x < c*hi` by a positive `c`. */
  lemma Unscale(x: real, c: real, lo: real, hi: real)
    requires c > 0.0
    requires c * lo <= c * x < c * hi
    ensures lo <= x < hi
  {
  }

  /** `Trunc` keeps the order of non-negative values. */
  lemma TruncMono(x: real, y: real)
    requires 0.0 <= x <= y
    ensures Trunc(x) <= Trunc(y)
  {
  }

  /** Truncating division by a positive integer keeps order. */
  lemma TruncDivMono(a: int, a': int, g: int)
    requires g > 0 && a <= a'
    ensures TruncDiv(a, g) <= TruncDiv(a', g)
  {
    var q, q' := TruncDiv(a, g), TruncDiv(a', g);
    if q > q' {
      MulStep(g, q', q);
    }
  }

  /** Truncating division lands between any integer bounds of the
      dividend's exact quotient. */
  lemma TruncDivBetween(a: int, g: int, lo: int, hi: int)
    requires g > 0 && g * lo <= a <= g * hi
    ensures lo <= TruncDiv(a, g) <= hi
  {
    var q := TruncDiv(a, g);
    assert g * q - g < a < g * q + g;
    if q > hi {
      MulStep(g, hi, q);
    }
    if q < lo {
      MulStep(g, q, lo);
    }
  }

  /** Between distinct multiples of `g` lies at least one step of `g`. */
  lemma MulStep(g: int, x: int, y: int)
    requires g >= 0 && x < y
    ensures g * x + g <= g * y
  {
    MulLe(g, x + 1, y);
    assert g * (x + 1) == g * x + g;
  }

  /** A dividend that moves by `d * k` with `k >= 0` moves its truncated
      quotient the same way as the sign of `d`. */
  lemma TruncDivShift(a: int, a': int, g: int, d: int, k: int)
    requires g > 0 && k >= 0 && a' - a == d * k
    ensures d >= 0 ==> TruncDiv(a, g) <= TruncDiv(a', g)
    ensures d <= 0 ==> TruncDiv(a', g) <= TruncDiv(a, g)
  {
    if d >= 0 {
      MulLe(k, 0, d);
      TruncDivMono(a, a', g);
    }
    if d <= 0 {
      MulLe(k, d, 0);
      TruncDivMono(a', a, g);
    }
  }

  /** Multiplying by a non-negative integer keeps order. */
  lemma MulLe(g: int, x: int, y: int)
    requires g >= 0 && x <= y
    ensures g * x <= g * y
  {
    assert g * y - g * x == g * (y - x);
  }
}
