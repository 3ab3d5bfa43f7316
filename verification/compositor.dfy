/** The compositing plan of `create_qr_image`: which canvas is allocated,
    which layers are pasted over the rasterized modules and in what order,
    and what mode the returned image has.

    Image operations themselves (PIL's ellipse and rounded-rectangle
    rasterization, `thumbnail`, `paste`, `putalpha`) are foreign; the plan
    records each call with the parameters it is given.  The logo enters as
    the size `thumbnail` produced. */
module Compositor {
  import opened Wrappers
  import opened Numeric
  import opened Color
  import opened Geometry
  import Raster
  import Gradient

  datatype Mode = RGB | RGBA

  /** The mask shapes the code distinguishes. */
  datatype Shape = Square | Circle | RoundedRectangle

  /** The background treatments the code distinguishes; `Plain` covers
      "Solid", a missing key and any other string. */
  datatype Background = Plain | Halo | RadialGradient

  /** The `logo_options` dictionary; a missing key is `None`. */
  datatype LogoOptions = LogoOptions(
    size: Option<real>,
    shape: Option<string>,
    backgroundStyle: Option<string>,
    border: Option<bool>)

  /** The logo as `thumbnail` left it. */
  datatype Logo = Logo(width: nat, height: nat)

  /** The shape filled with 255 into a mask: `rectangle`, `ellipse` or
      `rounded_rectangle`. */
  datatype Outline = Full | Ellipse | Rounded(radius: nat)

  /** A `width`-by-`height` coverage mask, the size of the image it is
      pasted with, and the box its outline is drawn in.  The code passes
      `(0, 0) + size` as that box; PIL counts both corners as inside, so the
      box is one pixel wider and taller than the mask. */
  datatype Mask = Mask(width: nat, height: nat, outline: Outline, box: Gradient.Box)

  /** One image operation of the render, in call order. */
  datatype Step =
    | NewCanvas(mode: Mode, edge: nat, fill: Rgb)
    | PaintModules(grid: Raster.Grid, moduleSize: nat, border: nat, dark: Rgb)
    | FitLogo(maxSide: int)
    | CutHalo(edge: nat, logoMaxSide: nat, moduleSize: nat)
    | PasteGradient(at: int, gradEdge: nat, background: Rgb, rings: seq<Gradient.Ring>)
    | PasteFrame(frame: Rect, frameMode: Mode, frameFill: Rgb, frameMask: Mask)
    | PasteLogo(logo: Rect, logoMask: Mask)
    | Flatten(onto: Rgb)

  /** The render: canvas edge, canvas mode, operations, returned mode. */
  datatype Rendering = Rendering(edge: nat, canvasMode: Mode, steps: seq<Step>, outputMode: Mode)

  const HaloStyle: string := "Gradient Halo"
  const GradientStyle: string := "Radial Gradient"
  const DefaultShape: string := "Square"

  /** The two string comparisons on `background_style`. */
  function BackgroundOf(style: Option<string>): (bg: Background)
    ensures bg == Halo <==> style == Some(HaloStyle)
    ensures bg == RadialGradient <==> style == Some(GradientStyle)
  {
    if style == Some(HaloStyle) then Halo
    else if style == Some(GradientStyle) then RadialGradient
    else Plain
  }

  /** `logo_options.get("shape", "Square")` followed by the two string
      comparisons; anything unrecognised is a square. */
  function ShapeOf(shape: Option<string>): (s: Shape)
    ensures s == Circle <==> shape == Some("Circle")
    ensures s == RoundedRectangle <==> shape == Some("Rounded Rectangle")
  {
    var name := shape.GetOr(DefaultShape);
    if name == "Circle" then Circle
    else if name == "Rounded Rectangle" then RoundedRectangle
    else Square
  }

  /** The mask drawn for an image of `w` by `h` pixels. */
  function MaskFor(shape: Shape, w: nat, h: nat): (mk: Mask)
    ensures mk.width == w && mk.height == h
    ensures mk.outline.Ellipse? <==> shape == Circle
    ensures mk.outline.Rounded? <==> shape == RoundedRectangle
    ensures mk.outline.Rounded? ==>
              2 * mk.outline.radius <= Min(w, h) && 5 * mk.outline.radius <= Min(w, h) < 5 * mk.outline.radius + 5
    ensures mk.box.x0 == 0 && mk.box.y0 == 0
    ensures mk.box.x1 - mk.box.x0 + 1 == w + 1 && mk.box.y1 - mk.box.y0 + 1 == h + 1
  {
    var outline := match shape
      case Circle => Ellipse
      case RoundedRectangle => Rounded(CornerRadius(Min(w, h)))
      case Square => Full;
    Mask(w, h, outline, Gradient.Box(0, 0, w, h))
  }

  /** The canvas is allocated with an alpha channel only for the halo. */
  function CanvasMode(opts: LogoOptions): Mode {
    if opts.backgroundStyle == Some(HaloStyle) then RGBA else RGB
  }

  /** The background step for the chosen style, if any. */
  function BackgroundSteps(bg: Background, edge: nat, m: nat, light: Rgb, dark: Rgb, logo: Logo): seq<Step> {
    var maxSide := Max(logo.width, logo.height);
    match bg
    case Halo => [CutHalo(edge, maxSide, m)]
    case RadialGradient =>
      var g := GradientEdge(maxSide);
      [PasteGradient(CenterOffset(edge, g), g, Rgb(0, 0, 0), Gradient.Rings(light, dark, g))]
    case Plain => []
  }

  /** The frame step, when a border is requested. */
  function FrameSteps(border: bool, shape: Shape, mode: Mode, m: nat, dark: Rgb, logo: Logo, at: Rect): seq<Step> {
    if border then
      var bw := BorderWidth(m);
      [PasteFrame(FrameRect(at, bw), mode, dark, MaskFor(shape, logo.width + 2 * bw, logo.height + 2 * bw))]
    else []
  }

  /** Everything done for a logo: fit it, paint the background, paste the
      frame, paste the logo. */
  function LogoSteps(edge: nat, m: nat, light: Rgb, dark: Rgb, logo: Logo, opts: LogoOptions, mode: Mode): seq<Step> {
    var rect := LogoRect(edge, logo.width, logo.height);
    var shape := ShapeOf(opts.shape);
    [FitLogo(LogoMaxSize(edge, opts.size.GetOr(DefaultSizeRatio)))]
    + BackgroundSteps(BackgroundOf(opts.backgroundStyle), edge, m, light, dark, logo)
    + FrameSteps(opts.border.GetOr(false), shape, mode, m, dark, logo, rect)
    + [PasteLogo(rect, MaskFor(shape, logo.width, logo.height))]
  }

  /** `create_qr_image`. */
  function Render(grid: Raster.Grid, m: nat, b: nat, light: Rgb, dark: Rgb, logo: Option<Logo>, opts: LogoOptions): (r: Rendering)
    ensures r.edge == (|grid| + 2 * b) * m
    ensures r.canvasMode == RGBA <==> opts.backgroundStyle == Some(HaloStyle)
    ensures r.outputMode == RGB
    ensures 2 <= |r.steps|
    ensures r.steps[0] == NewCanvas(r.canvasMode, r.edge, light)
    ensures r.steps[1] == PaintModules(grid, m, b, dark)
  {
    var edge := Raster.ImageSize(|grid|, m, b);
    var mode := CanvasMode(opts);
    Rendering(edge, mode,
              [NewCanvas(mode, edge, light), PaintModules(grid, m, b, dark)]
              + Overlay(edge, m, light, dark, logo, opts, mode)
              + FlattenSteps(mode, light),
              if mode == RGBA then RGB else mode)
  }

  /** Logo work happens only when a logo is given. */
  function Overlay(edge: nat, m: nat, light: Rgb, dark: Rgb, logo: Option<Logo>, opts: LogoOptions, mode: Mode): seq<Step> {
    match logo
    case Some(l) => LogoSteps(edge, m, light, dark, l, opts, mode)
    case None => []
  }

  /** An RGBA canvas is composited onto the light colour as a new RGB image. */
  function FlattenSteps(mode: Mode, light: Rgb): seq<Step> {
    if mode == RGBA then [Flatten(light)] else []
  }

  // ---------------------------------------------------------------------
  // Properties

  /** What a step does, without its parameters. */
  datatype Kind = KCanvas | KModules | KFit | KHalo | KGradient | KFrame | KLogo | KFlatten

  function KindOf(s: Step): Kind {
    match s
    case NewCanvas(_, _, _) => KCanvas
    case PaintModules(_, _, _, _) => KModules
    case FitLogo(_) => KFit
    case CutHalo(_, _, _) => KHalo
    case PasteGradient(_, _, _, _) => KGradient
    case PasteFrame(_, _, _, _) => KFrame
    case PasteLogo(_, _) => KLogo
    case Flatten(_) => KFlatten
  }

  /** The position of each kind of step in the fixed order of the code. */
  function Rank(s: Step): nat {
    match KindOf(s)
    case KCanvas => 0
    case KModules => 1
    case KFit => 2
    case KHalo => 3
    case KGradient => 3
    case KFrame => 4
    case KLogo => 5
    case KFlatten => 6
  }

  predicate Has(steps: seq<Step>, k: Kind) {
    exists i :: 0 <= i < |steps| && KindOf(steps[i]) == k
  }

  lemma HasConcat(a: seq<Step>, c: seq<Step>, k: Kind)
    ensures Has(a + c, k) <==> Has(a, k) || Has(c, k)
  {
    if Has(a + c, k) {
      var i :| 0 <= i < |a + c| && KindOf((a + c)[i]) == k;
      if i >= |a| {
        assert c[i - |a|] == (a + c)[i];
      }
    }
    if Has(a, k) {
      var i :| 0 <= i < |a| && KindOf(a[i]) == k;
      assert (a + c)[i] == a[i];
    }
    if Has(c, k) {
      var i :| 0 <= i < |c| && KindOf(c[i]) == k;
      assert (a + c)[|a| + i] == c[i];
    }
  }

  predicate Ranked(steps: seq<Step>) {
    forall i, j :: 0 <= i < j < |steps| ==> Rank(steps[i]) < Rank(steps[j])
  }

  /** Steps come in the code's order, each kind at most once: canvas,
      modules, fit, background, frame, logo, flatten.  So the logo is the
      last layer pasted, and only the flatten can follow it. */
  lemma StepsInOrder(grid: Raster.Grid, m: nat, b: nat, light: Rgb, dark: Rgb, logo: Option<Logo>, opts: LogoOptions)
    ensures Ranked(Render(grid, m, b, light, dark, logo, opts).steps)
  {
    var edge := Raster.ImageSize(|grid|, m, b);
    var mode := CanvasMode(opts);
    var head := [NewCanvas(mode, edge, light), PaintModules(grid, m, b, dark)];
    var overlay := Overlay(edge, m, light, dark, logo, opts, mode);
    if logo.Some? {
      LogoStepsInOrder(edge, m, light, dark, logo.value, opts, mode);
    }
    RankedConcat(head, overlay, 0, 1, 2, 5);
    RankedConcat(head + overlay, FlattenSteps(mode, light), 0, 5, 6, 6);
  }

  /** The logo steps alone are in order and lie between fitting and
      pasting the logo. */
  lemma LogoStepsInOrder(edge: nat, m: nat, light: Rgb, dark: Rgb, logo: Logo, opts: LogoOptions, mode: Mode)
    ensures Ranked(LogoSteps(edge, m, light, dark, logo, opts, mode))
    ensures forall i :: 0 <= i < |LogoSteps(edge, m, light, dark, logo, opts, mode)| ==>
              2 <= Rank(LogoSteps(edge, m, light, dark, logo, opts, mode)[i]) <= 5
  {
    var rect := LogoRect(edge, logo.width, logo.height);
    var shape := ShapeOf(opts.shape);
    var fit := [FitLogo(LogoMaxSize(edge, opts.size.GetOr(DefaultSizeRatio)))];
    var bg := BackgroundSteps(BackgroundOf(opts.backgroundStyle), edge, m, light, dark, logo);
    var fr := FrameSteps(opts.border.GetOr(false), shape, mode, m, dark, logo, rect);
    var last := [PasteLogo(rect, MaskFor(shape, logo.width, logo.height))];
    RankedConcat(fit, bg, 2, 2, 3, 3);
    RankedConcat(fit + bg, fr, 2, 3, 4, 4);
    RankedConcat(fit + bg + fr, last, 2, 4, 5, 5);
  }

  /** Two ranked runs, the second entirely above the first, make a ranked
      run. */
  lemma RankedConcat(a: seq<Step>, c: seq<Step>, aLo: nat, aHi: nat, cLo: nat, cHi: nat)
    requires Ranked(a) && Ranked(c) && aLo <= aHi < cLo <= cHi
    requires forall i :: 0 <= i < |a| ==> aLo <= Rank(a[i]) <= aHi
    requires forall i :: 0 <= i < |c| ==> cLo <= Rank(c[i]) <= cHi
    ensures Ranked(a + c)
    ensures forall i :: 0 <= i < |a + c| ==> aLo <= Rank((a + c)[i]) <= cHi
  {
  }

  /** Which layers a render has: the halo cut only for "Gradient Halo", the
      gradient paste only for "Radial Gradient", the frame only when the
      border flag is set, and the background, frame and logo only with a
      logo.  The flatten happens exactly for an RGBA canvas, as the very
      last step. */
  lemma LayersPresent(grid: Raster.Grid, m: nat, b: nat, light: Rgb, dark: Rgb, logo: Option<Logo>, opts: LogoOptions)
    ensures var r := Render(grid, m, b, light, dark, logo, opts);
      && (Has(r.steps, KHalo) <==> logo.Some? && opts.backgroundStyle == Some(HaloStyle))
      && (Has(r.steps, KGradient) <==> logo.Some? && opts.backgroundStyle == Some(GradientStyle))
      && (Has(r.steps, KFrame) <==> logo.Some? && opts.border == Some(true))
      && (Has(r.steps, KLogo) <==> logo.Some?)
      && (Has(r.steps, KFlatten) <==> r.canvasMode == RGBA)
      && (r.canvasMode == RGBA ==> r.steps[|r.steps| - 1] == Flatten(light))
  {
    var edge := Raster.ImageSize(|grid|, m, b);
    var mode := CanvasMode(opts);
    var head := [NewCanvas(mode, edge, light), PaintModules(grid, m, b, dark)];
    var overlay := Overlay(edge, m, light, dark, logo, opts, mode);
    var tail := FlattenSteps(mode, light);
    forall k: Kind
      ensures Has(head + overlay + tail, k) <==> Has(head, k) || Has(overlay, k) || Has(tail, k)
    {
      HasConcat(head, overlay, k);
      HasConcat(head + overlay, tail, k);
    }
    assert !Has(head, KHalo) && !Has(head, KGradient) && !Has(head, KFrame) && !Has(head, KLogo) && !Has(head, KFlatten);
    if logo.Some? {
      LogoLayers(edge, m, light, dark, logo.value, opts, mode);
    }
    if mode == RGBA {
      assert Has(tail, KFlatten) by { assert KindOf(tail[0]) == KFlatten; }
    }
  }

  /** The logo steps hold a background step for exactly the two styles
      and a frame for exactly the border flag; they always end with the logo
      and never flatten. */
  lemma LogoLayers(edge: nat, m: nat, light: Rgb, dark: Rgb, logo: Logo, opts: LogoOptions, mode: Mode)
    ensures var s := LogoSteps(edge, m, light, dark, logo, opts, mode);
      && (Has(s, KHalo) <==> opts.backgroundStyle == Some(HaloStyle))
      && (Has(s, KGradient) <==> opts.backgroundStyle == Some(GradientStyle))
      && (Has(s, KFrame) <==> opts.border == Some(true))
      && Has(s, KLogo) && !Has(s, KFlatten)
  {
    var rect := LogoRect(edge, logo.width, logo.height);
    var shape := ShapeOf(opts.shape);
    var fit := [FitLogo(LogoMaxSize(edge, opts.size.GetOr(DefaultSizeRatio)))];
    var bg := BackgroundSteps(BackgroundOf(opts.backgroundStyle), edge, m, light, dark, logo);
    var fr := FrameSteps(opts.border.GetOr(false), shape, mode, m, dark, logo, rect);
    var last := [PasteLogo(rect, MaskFor(shape, logo.width, logo.height))];
    forall k: Kind
      ensures Has(fit + bg + fr + last, k) <==> Has(fit, k) || Has(bg, k) || Has(fr, k) || Has(last, k)
    {
      HasConcat(fit, bg, k);
      HasConcat(fit + bg, fr, k);
      HasConcat(fit + bg + fr, last, k);
    }
    assert KindOf(last[0]) == KLogo;
    if |bg| > 0 {
      assert KindOf(bg[0]) == (if opts.backgroundStyle == Some(HaloStyle) then KHalo else KGradient);
    }
    if |fr| > 0 {
      assert KindOf(fr[0]) == KFrame;
    }
  }

  /** The frame is made in the canvas's mode, filled with the dark colour,
      surrounds the logo by exactly the border width on every side, and a
      rounded frame takes its corner radius from its own shorter side. */
  lemma FrameFitsLogo(grid: Raster.Grid, m: nat, b: nat, light: Rgb, dark: Rgb, logo: Logo, opts: LogoOptions)
    requires opts.border == Some(true)
    ensures var r := Render(grid, m, b, light, dark, Some(logo), opts);
      exists i, j :: 0 <= i < j < |r.steps| && r.steps[i].PasteFrame? && r.steps[j].PasteLogo?
        && r.steps[i].frameMode == r.canvasMode
        && r.steps[i].frameFill == dark
        && r.steps[j].logo == LogoRect(r.edge, logo.width, logo.height)
        && Margins(r.steps[i].frame, r.steps[j].logo) == (BorderWidth(m), BorderWidth(m), BorderWidth(m), BorderWidth(m))
        && r.steps[i].frameMask.width == r.steps[i].frame.w && r.steps[i].frameMask.height == r.steps[i].frame.h
        && (r.steps[i].frameMask.outline.Rounded? ==>
              5 * r.steps[i].frameMask.outline.radius <= Min(r.steps[i].frame.w, r.steps[i].frame.h)
                < 5 * r.steps[i].frameMask.outline.radius + 5)
  {
    var edge := Raster.ImageSize(|grid|, m, b);
    var mode := CanvasMode(opts);
    var rect := LogoRect(edge, logo.width, logo.height);
    var shape := ShapeOf(opts.shape);
    var fit := [FitLogo(LogoMaxSize(edge, opts.size.GetOr(DefaultSizeRatio)))];
    var bg := BackgroundSteps(BackgroundOf(opts.backgroundStyle), edge, m, light, dark, logo);
    var fr := FrameSteps(true, shape, mode, m, dark, logo, rect);
    var last := [PasteLogo(rect, MaskFor(shape, logo.width, logo.height))];
    var head := [NewCanvas(mode, edge, light), PaintModules(grid, m, b, dark)];
    var ls := LogoSteps(edge, m, light, dark, logo, opts, mode);
    assert ls == fit + bg + fr + last;
    var r := Render(grid, m, b, light, dark, Some(logo), opts);
    assert r.steps == head + ls + FlattenSteps(mode, light);
    var i := 3 + |bg|;
    assert ls[1 + |bg|] == fr[0];
    assert ls[2 + |bg|] == last[0];
    assert r.steps[i] == fr[0];
    assert r.steps[i + 1] == last[0];
    FrameMargins(rect, BorderWidth(m));
  }

  /** With every option missing: a plain RGB canvas, the logo bound is a
      quarter of the edge, no background, no frame, a square logo mask. */
  lemma DefaultOptions(grid: Raster.Grid, m: nat, b: nat, light: Rgb, dark: Rgb, logo: Logo)
    ensures var r := Render(grid, m, b, light, dark, Some(logo), LogoOptions(None, None, None, None));
      r.steps == [NewCanvas(RGB, r.edge, light), PaintModules(grid, m, b, dark),
                  FitLogo(r.edge / 4), PasteLogo(LogoRect(r.edge, logo.width, logo.height),
                            Mask(logo.width, logo.height, Full, Gradient.Box(0, 0, logo.width, logo.height)))]
  {
    DefaultMaxSize(Raster.ImageSize(|grid|, m, b));
  }
}
