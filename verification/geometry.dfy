/** Integer geometry of the logo overlay: the logo's size limit and centred
    position, the border frame around it, the corner radius of rounded masks
    and the edge of the radial-gradient square.

    The Python code multiplies by the float constants 0.75, 0.2 and 1.2 and
    truncates with `int()`.  0.75 is exact in binary; 0.2 and 1.2 are not,
    and are modelled as the exact rationals 1/5 and 6/5, so `int(k * 0.2)` is
    `k / 5` and `int(k * 1.2)` is `6 * k / 5` here. */
module Geometry {
  import opened Numeric

  /** A pixel rectangle: top-left corner and extent. */
  datatype Rect = Rect(x: int, y: int, w: int, h: int)

  /** The logo size ratio used when the options carry none. */
  const DefaultSizeRatio: real := 0.25

  /** `int(image_size * ratio)`: the bound handed to `thumbnail`. */
  function LogoMaxSize(size: nat, ratio: real): (k: int)
    ensures 0.0 <= ratio ==> 0 <= k && k as real <= size as real * ratio < k as real + 1.0
    ensures ratio < 0.0 ==> k <= 0
  {
    Trunc(size as real * ratio)
  }

  /** `(size - w) // 2`: the offset that centres an extent `w` in `size`. */
  function CenterOffset(size: int, w: int): (x: int)
    ensures 2 * x <= size - w < 2 * x + 2
    ensures 0 <= w <= size ==> 0 <= x && x + w <= size
    ensures (size - (x + w)) - x == 0 || (size - (x + w)) - x == 1
  {
    FloorDiv(size - w, 2)
  }

  /** Where a `w`-by-`h` logo is pasted on a `size`-by-`size` canvas. */
  function LogoRect(size: int, w: int, h: int): Rect {
    Rect(CenterOffset(size, w), CenterOffset(size, h), w, h)
  }

  /** `max(1, int(module_size * 0.75))`: the frame's width. */
  function BorderWidth(m: nat): (bw: nat)
    ensures bw >= 1
    ensures bw == Max(1, Trunc(m as real * 0.75))
    ensures 4 <= 3 * m ==> 4 * bw <= 3 * m < 4 * bw + 4
  {
    var q := (3 * m) / 4;
    QuotientIsTrunc(3 * m, 4, q);
    assert (3 * m) as real / 4 as real == m as real * 0.75;
    Max(1, q)
  }

  /** The frame rectangle: the logo rectangle grown by `bw` on each side,
      pasted at `(logo_x - border_width, logo_y - border_width)`. */
  function FrameRect(logo: Rect, bw: int): Rect {
    Rect(logo.x - bw, logo.y - bw, logo.w + 2 * bw, logo.h + 2 * bw)
  }

  /** Distances from each side of `inner` to the same side of `outer`:
      left, top, right, bottom. */
  function Margins(outer: Rect, inner: Rect): (int, int, int, int) {
    (inner.x - outer.x, inner.y - outer.y,
     (outer.x + outer.w) - (inner.x + inner.w), (outer.y + outer.h) - (inner.y + inner.h))
  }

  /** `int(k * 0.2)` with 0.2 taken as 1/5: the corner radius of a rounded
      rectangle whose shorter side is `k`. */
  function CornerRadius(k: nat): (r: nat)
    ensures r == Trunc(k as real / 5.0)
    ensures 5 * r <= k < 5 * r + 5
    ensures 2 * r <= k
  {
    var q := k / 5;
    QuotientIsTrunc(k, 5, q);
    q
  }

  /** `int(max_side * 1.2)` with 1.2 taken as 6/5: the edge of the square
      buffer the radial gradient is drawn in. */
  function GradientEdge(maxSide: nat): (g: nat)
    ensures g == Trunc(maxSide as real * 6.0 / 5.0)
    ensures 5 * g <= 6 * maxSide < 5 * g + 5
    ensures maxSide <= g
  {
    var q := (6 * maxSide) / 5;
    QuotientIsTrunc(6 * maxSide, 5, q);
    assert (6 * maxSide) as real / 5 as real == maxSide as real * 6.0 / 5.0;
    q
  }

  // ---------------------------------------------------------------------
  // Properties

  /** With the default ratio the logo bound is a quarter of the canvas,
      rounded down. */
  lemma DefaultMaxSize(size: nat)
    ensures LogoMaxSize(size, DefaultSizeRatio) == size / 4
  {
    QuotientIsTrunc(size, 4, size / 4);
    assert size as real / 4 as real == size as real * 0.25;
  }

  /** A logo that fits is placed inside the canvas, and its right (bottom)
      margin exceeds its left (top) margin by at most one pixel. */
  lemma LogoInsideCanvas(size: nat, w: nat, h: nat)
    requires w <= size && h <= size
    ensures var r := LogoRect(size, w, h);
      && 0 <= r.x && r.x + r.w <= size && 0 <= r.y && r.y + r.h <= size
      && 0 <= (size - (r.x + r.w)) - r.x <= 1
      && 0 <= (size - (r.y + r.h)) - r.y <= 1
  {
  }

  /** The frame extends exactly `bw` beyond the logo on every side. */
  lemma FrameMargins(logo: Rect, bw: int)
    ensures Margins(FrameRect(logo, bw), logo) == (bw, bw, bw, bw)
  {
  }

  /** The frame is never thinner than one pixel, and it is always wider
      than the logo by at least two pixels per axis. */
  lemma FrameEnclosesLogo(logo: Rect, m: nat)
    ensures var f := FrameRect(logo, BorderWidth(m));
      && f.x < logo.x && f.y < logo.y
      && logo.x + logo.w < f.x + f.w && logo.y + logo.h < f.y + f.h
      && f.w >= logo.w + 2 && f.h >= logo.h + 2
  {
  }

  /** The gradient square, centred the same way, covers the logo's box. */
  lemma GradientCoversLogo(size: nat, w: nat, h: nat)
    ensures var g := GradientEdge(Max(w, h));
      var o := CenterOffset(size, g);
      && o <= CenterOffset(size, w) && CenterOffset(size, w) + w <= o + g
      && o <= CenterOffset(size, h) && CenterOffset(size, h) + h <= o + g
  {
  }
}
