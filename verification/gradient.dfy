/** The "Radial Gradient" background: concentric ellipses drawn in a
    `g`-by-`g` buffer, outermost first.

    Ring `i` (for `i` from 0 to `g - 1`) is the ellipse with bounding box
    `(i, i, g - 1 - i, g - 1 - i)`, filled per channel with
    `int(light * ratio + dark * (1 - ratio))` where `ratio = i / g`.  Ring 0
    is therefore the dark colour, at the rim, and later rings, drawn over the
    earlier ones, move toward the light colour at the centre.  The value is
    taken on the exact rational `(light * i + dark * (g - i)) / g`; the float
    evaluation can differ by one where that rational is an integer. */
module Gradient {
  import opened Numeric
  import opened Color

  /** An ellipse's bounding box, corners inclusive: `(x0, y0, x1, y1)`. */
  datatype Box = Box(x0: int, y0: int, x1: int, y1: int)

  /** One `draw.ellipse` call of the loop. */
  datatype Ring = Ring(box: Box, fill: Rgb)

  predicate WellFormed(b: Box) {
    b.x0 <= b.x1 && b.y0 <= b.y1
  }

  /** `inner` lies within `outer` on both axes. */
  predicate Within(inner: Box, outer: Box) {
    outer.x0 <= inner.x0 && inner.x1 <= outer.x1 && outer.y0 <= inner.y0 && inner.y1 <= outer.y1
  }

  /** The channel of ring `i` of `g`, interpolating from `dark` (ring 0)
      toward `light`. */
  function RingChannel(light: int, dark: int, g: nat, i: nat): (c: int)
    requires i < g
    ensures c == Trunc(light as real * (i as real / g as real) + dark as real * (1.0 - i as real / g as real))
    ensures i == 0 ==> c == dark
    ensures Min(light, dark) <= c <= Max(light, dark)
  {
    var a := light * i + dark * (g - i);
    Interpolation(light, dark, g, i);
    TruncDivBetween(a, g, Min(light, dark), Max(light, dark));
    TruncDiv(a, g)
  }

  /** The dividend lies between `g` times each end colour, and over `g` it is
      the float expression of the Python code. */
  lemma Interpolation(light: int, dark: int, g: nat, i: nat)
    requires i < g
    ensures g * Min(light, dark) <= light * i + dark * (g - i) <= g * Max(light, dark)
    ensures (light * i + dark * (g - i)) as real / g as real
            == light as real * (i as real / g as real) + dark as real * (1.0 - i as real / g as real)
  {
    var lo, hi := Min(light, dark), Max(light, dark);
    MulLe(i, lo, light);
    MulLe(g - i, lo, dark);
    MulLe(i, light, hi);
    MulLe(g - i, dark, hi);
    assert g * lo == i * lo + (g - i) * lo;
    assert g * hi == i * hi + (g - i) * hi;
    var t := i as real / g as real;
    var gr := g as real;
    assert t * gr == i as real;
    assert (light * i + dark * (g - i)) as real == light as real * i as real + dark as real * (gr - i as real);
    assert light as real * t + dark as real * (1.0 - t)
           == (light as real * i as real + dark as real * (gr - i as real)) / gr;
  }

  function RingColor(light: Rgb, dark: Rgb, g: nat, i: nat): Rgb
    requires i < g
  {
    Rgb(RingChannel(light.r, dark.r, g, i), RingChannel(light.g, dark.g, g, i), RingChannel(light.b, dark.b, g, i))
  }

  /** The bounding box of ring `i`: inset by `i` on every side. */
  function RingBox(g: nat, i: nat): (b: Box)
    ensures WellFormed(b) <==> 2 * i + 1 <= g
    ensures b.x1 - b.x0 == b.y1 - b.y0 == g - 1 - 2 * i
  {
    Box(i, i, g - 1 - i, g - 1 - i)
  }

  /** The draw calls of the gradient loop, in the order they are made. */
  /** The rings in drawing order, one per `i in range(g)`. */
  function Rings(light: Rgb, dark: Rgb, g: nat): (rs: seq<Ring>)
    ensures |rs| == g
    ensures forall i :: 0 <= i < |rs| ==> rs[i].box == Box(i, i, g - 1 - i, g - 1 - i)
    ensures forall i :: 0 <= i < |rs| ==>
              rs[i].fill.r == RingChannel(light.r, dark.r, g, i)
              && rs[i].fill.g == RingChannel(light.g, dark.g, g, i)
              && rs[i].fill.b == RingChannel(light.b, dark.b, g, i)
    ensures forall i :: 0 <= i < |rs| ==> Between(rs[i].fill, dark, light)
  {
    seq(g, i requires 0 <= i < g => Ring(RingBox(g, i), RingColor(light, dark, g, i)))
  }

  // ---------------------------------------------------------------------
  // Properties

  /** The outermost ring covers the whole buffer and is the dark colour. */
  lemma FirstRingIsDark(light: Rgb, dark: Rgb, g: nat)
    requires 0 < g
    ensures Rings(light, dark, g)[0] == Ring(Box(0, 0, g - 1, g - 1), dark)
  {
  }

  /** A ring channel moves toward the light channel as the ring index
      grows: never further from it, and never past it. */
  lemma ChannelTowardLight(light: int, dark: int, g: nat, i: nat, j: nat)
    requires i <= j < g
    ensures light >= dark ==> RingChannel(light, dark, g, i) <= RingChannel(light, dark, g, j) <= light
    ensures light <= dark ==> light <= RingChannel(light, dark, g, j) <= RingChannel(light, dark, g, i)
  {
    DividendStep(light, dark, g, i, j);
  }

  /** The dividend moves by `(light - dark) * (j - i)` from ring `i` to
      ring `j`. */
  lemma DividendStep(light: int, dark: int, g: nat, i: nat, j: nat)
    requires i <= j < g
    ensures var a, a' := light * i + dark * (g - i), light * j + dark * (g - j);
      && (light >= dark ==> TruncDiv(a, g) <= TruncDiv(a', g))
      && (light <= dark ==> TruncDiv(a', g) <= TruncDiv(a, g))
  {
    DividendDiff(light, dark, g, i, j);
    TruncDivShift(light * i + dark * (g - i), light * j + dark * (g - j), g, light - dark, j - i);
  }

  /** Moving from ring `i` to ring `j` changes the dividend by
      `(light - dark) * (j - i)`. */
  lemma DividendDiff(light: int, dark: int, g: nat, i: nat, j: nat)
    requires i <= j < g
    ensures (light * j + dark * (g - j)) - (light * i + dark * (g - i)) == (light - dark) * (j - i)
  {
    var k := j - i;
    assert light * j == light * i + light * k;
    assert dark * (g - i) == dark * (g - j) + dark * k;
    assert (light - dark) * k == light * k - dark * k;
  }

  /** Later rings sit inside earlier ones, their colours move monotonically
      toward the light colour, and every channel stays between the dark and
      light values. */
  lemma RingsOrdered(light: Rgb, dark: Rgb, g: nat, i: nat, j: nat)
    requires i <= j < g
    ensures var rs := Rings(light, dark, g);
      && Within(rs[j].box, rs[i].box)
      && Closer(rs[j].fill, rs[i].fill, light)
      && Between(rs[j].fill, dark, light)
  {
    ChannelTowardLight(light.r, dark.r, g, i, j);
    ChannelTowardLight(light.g, dark.g, g, i, j);
    ChannelTowardLight(light.b, dark.b, g, i, j);
  }

  /** Each channel of `c` lies between the channels of `a` and `b`. */
  predicate Between(c: Rgb, a: Rgb, b: Rgb) {
    Min(a.r, b.r) <= c.r <= Max(a.r, b.r)
    && Min(a.g, b.g) <= c.g <= Max(a.g, b.g)
    && Min(a.b, b.b) <= c.b <= Max(a.b, b.b)
  }

  function Dist(x: int, y: int): nat {
    if x <= y then y - x else x - y
  }

  /** Each channel of `c` is at least as near the target's as that of `d`. */
  predicate Closer(c: Rgb, d: Rgb, target: Rgb) {
    Dist(c.r, target.r) <= Dist(d.r, target.r)
    && Dist(c.g, target.g) <= Dist(d.g, target.g)
    && Dist(c.b, target.b) <= Dist(d.b, target.b)
  }

  /** Rings past the middle of the buffer have inverted boxes: for any
      buffer of two or more pixels the last ring is one of them. */
  lemma LastRingInverted(light: Rgb, dark: Rgb, g: nat)
    requires 2 <= g
    ensures !WellFormed(Rings(light, dark, g)[g - 1].box)
  {
  }
}
