/** The "Gradient Halo" background: an alpha ramp cut into the canvas around
    its centre.

    For a pixel at distance `d` from the canvas centre, with `inner` half the
    logo's longer side and `outer = inner + 2 * module_size`, the alpha is 0
    inside `inner`, rises linearly across the annulus, and is 255 from
    `outer` on.  The distance is a square root in the renderer; here it is a
    real parameter, and which of the three zones a pixel falls in is decided
    exactly on integers, since `4 d^2 = (2 px - S)^2 + (2 py - S)^2`. */
module Halo {
  import opened Numeric

  function InnerRadius(maxSide: nat): real {
    maxSide as real / 2.0
  }

  function OuterRadius(maxSide: nat, m: nat): real {
    InnerRadius(maxSide) + 2.0 * m as real
  }

  /** The alpha written for a pixel at distance `d`.  The fade value is the
      `uint8` cast of `255 * (d - inner) / (outer - inner)`, which truncates. */
  function Alpha(d: real, maxSide: nat, m: nat): (a: int)
    ensures 0 <= a <= 255
    ensures d <= InnerRadius(maxSide) ==> a == 0
    ensures InnerRadius(maxSide) < d && OuterRadius(maxSide, m) <= d ==> a == 255
    ensures InnerRadius(maxSide) < d < OuterRadius(maxSide, m) ==>
              a <= 254 && a as real <= 255.0 * (d - InnerRadius(maxSide)) / (2.0 * m as real) < a as real + 1.0
  {
    var inner, outer := InnerRadius(maxSide), OuterRadius(maxSide, m);
    if d <= inner then 0
    else if d < outer then
      var ramp := 255.0 * (d - inner) / (outer - inner);
      FractionBelowOne(d - inner, outer - inner);
      Trunc(ramp)
    else 255
  }

  /** Where a pixel falls relative to the two radii. */
  datatype Zone = Cutout | Fade | Opaque

  function Sq(k: int): nat {
    k * k
  }

  /** The zone of pixel `(px, py)` on a `size`-by-`size` canvas, computed on
      integers from four times the squared distance to the centre. */
  function ZoneOf(px: int, py: int, size: int, maxSide: nat, m: nat): Zone {
    var q := Sq(2 * px - size) + Sq(2 * py - size);
    if q <= Sq(maxSide) then Cutout
    else if q < Sq(maxSide + 4 * m) then Fade
    else Opaque
  }

  /** The squared distance of `(px, py)` from the canvas centre
      `(size / 2, size / 2)`. */
  function SquaredDistance(px: int, py: int, size: int): real {
    var cx := px as real - size as real / 2.0;
    var cy := py as real - size as real / 2.0;
    cx * cx + cy * cy
  }

  // ---------------------------------------------------------------------
  // Properties

  /** Alpha never decreases as the distance grows. */
  lemma AlphaMonotone(d1: real, d2: real, maxSide: nat, m: nat)
    requires d1 <= d2
    ensures Alpha(d1, maxSide, m) <= Alpha(d2, maxSide, m)
  {
    var inner, outer := InnerRadius(maxSide), OuterRadius(maxSide, m);
    if inner < d1 && d2 < outer {
      assert outer - inner == 2.0 * m as real;
      FractionBelowOne(d1 - inner, outer - inner);
      DivMono(255.0 * (d1 - inner), 255.0 * (d2 - inner), outer - inner);
      TruncMono(255.0 * (d1 - inner) / (outer - inner), 255.0 * (d2 - inner) / (outer - inner));
    }
  }

  /** The integer zone agrees with the distance: a pixel is cut out exactly
      when it is within the inner radius and opaque exactly when it is at or
      beyond the outer one; the alpha follows. */
  lemma ZoneMatchesDistance(px: int, py: int, size: int, maxSide: nat, m: nat, d: real)
    requires 0.0 <= d && d * d == SquaredDistance(px, py, size)
    ensures ZoneOf(px, py, size, maxSide, m) == Cutout <==> d <= InnerRadius(maxSide)
    ensures ZoneOf(px, py, size, maxSide, m) == Opaque <==> InnerRadius(maxSide) < d && OuterRadius(maxSide, m) <= d
    ensures ZoneOf(px, py, size, maxSide, m) == Cutout ==> Alpha(d, maxSide, m) == 0
    ensures ZoneOf(px, py, size, maxSide, m) == Fade ==> 0 <= Alpha(d, maxSide, m) <= 254
    ensures ZoneOf(px, py, size, maxSide, m) == Opaque ==> Alpha(d, maxSide, m) == 255
  {
    var q := Sq(2 * px - size) + Sq(2 * py - size);
    FourSquares(px, py, size, d);
    Threshold(q, d, maxSide);
    Threshold(q, d, maxSide + 4 * m);
    assert OuterRadius(maxSide, m) == (maxSide + 4 * m) as real / 2.0;
  }

  /** Four times the squared distance is the integer the zone test uses. */
  lemma FourSquares(px: int, py: int, size: int, d: real)
    requires d * d == SquaredDistance(px, py, size)
    ensures (2.0 * d) * (2.0 * d) == (Sq(2 * px - size) + Sq(2 * py - size)) as real
  {
    var ax, ay := (2 * px - size) as real, (2 * py - size) as real;
    assert Sq(2 * px - size) as real == ax * ax;
    assert Sq(2 * py - size) as real == ay * ay;
    assert 4.0 * SquaredDistance(px, py, size) == ax * ax + ay * ay;
  }

  /** Comparing `(2d)^2` with `r^2` compares `d` with `r / 2`. */
  lemma Threshold(q: nat, d: real, r: nat)
    requires 0.0 <= d && (2.0 * d) * (2.0 * d) == q as real
    ensures q <= Sq(r) <==> d <= r as real / 2.0
    ensures q < Sq(r) <==> d < r as real / 2.0
  {
    SquareOrder(2.0 * d, r as real);
    assert Sq(r) as real == r as real * r as real;
  }

  /** For non-negative reals, comparing squares compares the values. */
  lemma SquareOrder(a: real, b: real)
    requires 0.0 <= a && 0.0 <= b
    ensures a <= b <==> a * a <= b * b
    ensures a < b <==> a * a < b * b
  {
    assert b * b - a * a == (b - a) * (b + a);
    if a < b {
      MulPos(b - a, b + a);
    } else if b < a {
      MulPos(a - b, b + a);
      assert a * a - b * b == (a - b) * (b + a);
    }
  }

  lemma MulPos(x: real, y: real)
    requires 0.0 < x && 0.0 < y
    ensures 0.0 < x * y
  {
  }

  /** Dividing by a positive real keeps order. */
  lemma DivMono(x: real, y: real, c: real)
    requires 0.0 < c && x <= y
    ensures x / c <= y / c
  {
  }

  lemma ScaleLe(c: real, x: real, y: real)
    requires 0.0 <= c && x <= y
    ensures c * x <= c * y
  {
    assert c * y - c * x == c * (y - x);
  }

  /** A ramp position strictly inside its span, over the span's length, is
      a fraction below one; so the scaled ramp stays below 255. */
  lemma FractionBelowOne(x: real, span: real)
    requires 0.0 < x < span
    ensures 0.0 < 255.0 * x / span < 255.0
  {
    var t := x / span;
    assert t * span == x;
    if t >= 1.0 {
      ScaleLe(span, 1.0, t);
    }
    assert 255.0 * x / span == 255.0 * t;
  }
}
