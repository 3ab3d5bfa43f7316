/** The module rasterizer: the first stage of `create_qr_image`.

    An n-by-n module grid, a module size `m` (pixels per module edge) and a
    quiet zone `b` (modules of light margin on every side) give a square canvas
    of edge `(n + 2b) * m`.  The canvas starts light; every dark module paints
    its `m`-by-`m` block dark.  Pixel `(px, py)` is column `px`, row `py`,
    stored as `canvas[py][px]`. */
module Raster {
  import opened Color

  /** The module grid the encoder hands over: `grid[y][x]` is the module in
      row `y`, column `x`; `true` is dark. */
  type Grid = seq<seq<bool>>

  predicate IsSquare(grid: Grid) {
    forall y :: 0 <= y < |grid| ==> |grid[y]| == |grid|
  }

  /** `get_module(x, y)`: coordinates outside the grid read as light. */
  predicate IsDark(grid: Grid, x: int, y: int)
    requires IsSquare(grid)
  {
    0 <= x < |grid| && 0 <= y < |grid| && grid[y][x]
  }

  /** `image_size`: the canvas edge in pixels. */
  function ImageSize(n: nat, m: nat, b: nat): nat {
    (n + 2 * b) * m
  }

  /** A `size`-by-`size` pixel buffer. */
  predicate IsCanvas(canvas: seq<seq<Rgb>>, size: nat) {
    |canvas| == size && forall py :: 0 <= py < size ==> |canvas[py]| == size
  }

  /** `p` lies in the `q`-th run of `m` pixels. */
  predicate InBlock(p: int, q: int, m: nat) {
    q * m <= p < q * m + m
  }

  /** The reference colour of a pixel: the colour of the module whose block
      contains it, where the quiet zone counts as light. */
  function PixelColor(grid: Grid, m: nat, b: nat, light: Rgb, dark: Rgb, px: nat, py: nat): (c: Rgb)
    requires IsSquare(grid)
    requires px < ImageSize(|grid|, m, b) && py < ImageSize(|grid|, m, b)
    ensures c == light || c == dark
  {
    if IsDark(grid, px / m - b, py / m - b) then dark else light
  }

  /** The block description of the raster: the pixel lies in the block of
      some dark module. */
  ghost predicate InDarkBlock(grid: Grid, m: nat, b: nat, px: nat, py: nat)
    requires IsSquare(grid)
  {
    exists x, y :: 0 <= x < |grid| && 0 <= y < |grid| && grid[y][x] && InBlock(px, x + b, m) && InBlock(py, y + b, m)
  }

  // ---------------------------------------------------------------------
  // Arithmetic of blocks

  /** A pixel is in block `q` exactly when integer division by the block
      size yields `q`. */
  lemma BlockIndex(p: nat, q: int, m: nat)
    requires m > 0
    ensures InBlock(p, q, m) <==> p / m == q
  {
    var d := p / m;
    assert d * m <= p < d * m + m;
    if d < q {
      MulMono(d + 1, q, m);
    } else if q < d {
      MulMono(q + 1, d, m);
    }
  }

  /** Multiplying by a non-negative factor keeps the order. */
  lemma MulMono(a: int, c: int, m: nat)
    requires a <= c
    ensures a * m <= c * m
  {
    var k := c - a;
    assert c * m == a * m + k * m;
  }

  /** Block `x + b` of a module in the grid ends inside the canvas. */
  lemma BlockFits(n: nat, m: nat, b: nat, x: nat)
    requires x < n
    ensures (x + b) * m + m <= ImageSize(n, m, b)
  {
    assert (x + b) * m + m == (x + b + 1) * m;
    MulMono(x + b + 1, n + 2 * b, m);
  }

  /** Every pixel the four-level loop writes lies inside the canvas. */
  lemma WriteInBounds(n: nat, m: nat, b: nat, x: nat, y: nat, dx: nat, dy: nat)
    requires x < n && y < n && dx < m && dy < m
    ensures 0 <= (x + b) * m + dx < ImageSize(n, m, b)
    ensures 0 <= (y + b) * m + dy < ImageSize(n, m, b)
  {
    BlockFits(n, m, b, x);
    BlockFits(n, m, b, y);
  }

  // ---------------------------------------------------------------------
  // Properties of the reference colour

  /** The reference colour is the block fill: dark exactly on the blocks of
      dark modules, light everywhere else (quiet zone and light modules). */
  lemma PixelColorIsBlockFill(grid: Grid, m: nat, b: nat, light: Rgb, dark: Rgb, px: nat, py: nat)
    requires IsSquare(grid)
    requires px < ImageSize(|grid|, m, b) && py < ImageSize(|grid|, m, b)
    ensures PixelColor(grid, m, b, light, dark, px, py) == if InDarkBlock(grid, m, b, px, py) then dark else light
  {
    var x, y := px / m - b, py / m - b;
    BlockIndex(px, x + b, m);
    BlockIndex(py, y + b, m);
    if InDarkBlock(grid, m, b, px, py) {
      var x', y' :| 0 <= x' < |grid| && 0 <= y' < |grid| && grid[y'][x'] && InBlock(px, x' + b, m) && InBlock(py, y' + b, m);
      BlockIndex(px, x' + b, m);
      BlockIndex(py, y' + b, m);
      assert x' == x && y' == y;
    }
  }

  /** Pixels of the quiet zone are light. */
  lemma QuietZoneIsLight(grid: Grid, m: nat, b: nat, light: Rgb, dark: Rgb, px: nat, py: nat)
    requires IsSquare(grid)
    requires px < ImageSize(|grid|, m, b) && py < ImageSize(|grid|, m, b)
    requires px < b * m || (|grid| + b) * m <= px || py < b * m || (|grid| + b) * m <= py
    ensures PixelColor(grid, m, b, light, dark, px, py) == light
  {
    var n := |grid|;
    var x, y := px / m - b, py / m - b;
    if IsDark(grid, x, y) {
      BlockIndex(px, x + b, m);
      BlockIndex(py, y + b, m);
      MulMono(b, x + b, m);
      MulMono(x + b + 1, n + b, m);
      MulMono(b, y + b, m);
      MulMono(y + b + 1, n + b, m);
    }
  }

  // ---------------------------------------------------------------------
  // The four-level loop

  /** The canvas after the loop has visited modules in row-major order up
      to, but not including, module `(x, y)`. */
  function Painted(grid: Grid, m: nat, b: nat, light: Rgb, dark: Rgb, y: int, x: int, px: nat, py: nat): Rgb
    requires IsSquare(grid)
    requires px < ImageSize(|grid|, m, b) && py < ImageSize(|grid|, m, b)
  {
    var mx, my := px / m - b, py / m - b;
    if IsDark(grid, mx, my) && (my < y || (my == y && mx < x)) then dark else light
  }

  /** Visiting module `(x, y)` changes exactly the pixels of its block, and
      those only when the module is dark. */
  lemma PaintStep(grid: Grid, m: nat, b: nat, light: Rgb, dark: Rgb, y: nat, x: nat, px: nat, py: nat)
    requires IsSquare(grid) && y < |grid| && x < |grid|
    requires px < ImageSize(|grid|, m, b) && py < ImageSize(|grid|, m, b)
    ensures Painted(grid, m, b, light, dark, y, x + 1, px, py) ==
            if grid[y][x] && InBlock(px, x + b, m) && InBlock(py, y + b, m) then dark
            else Painted(grid, m, b, light, dark, y, x, px, py)
  {
    BlockIndex(px, x + b, m);
    BlockIndex(py, y + b, m);
  }

  /** Sets `row[x0 .. x0 + m)` to `dark`. */
  method PaintSpan(row: seq<Rgb>, x0: nat, m: nat, dark: Rgb) returns (out: seq<Rgb>)
    requires x0 + m <= |row|
    ensures |out| == |row|
    ensures forall px :: 0 <= px < |row| ==> out[px] == if x0 <= px < x0 + m then dark else row[px]
  {
    out := row;
    var dx := 0;
    while dx < m
      invariant 0 <= dx <= m
      invariant |out| == |row|
      invariant forall px :: 0 <= px < |row| ==> out[px] == if x0 <= px < x0 + dx then dark else row[px]
    {
      out := out[x0 + dx := dark];
      dx := dx + 1;
    }
  }

  /** Sets the `m`-by-`m` block with top-left pixel `(x0, y0)` to `dark`. */
  method PaintBlock(canvas: seq<seq<Rgb>>, size: nat, x0: nat, y0: nat, m: nat, dark: Rgb) returns (out: seq<seq<Rgb>>)
    requires IsCanvas(canvas, size) && x0 + m <= size && y0 + m <= size
    ensures IsCanvas(out, size)
    ensures forall py, px :: 0 <= py < size && 0 <= px < size ==>
              out[py][px] == if x0 <= px < x0 + m && y0 <= py < y0 + m then dark else canvas[py][px]
  {
    out := canvas;
    var dy := 0;
    while dy < m
      invariant 0 <= dy <= m
      invariant IsCanvas(out, size)
      invariant forall py, px :: 0 <= py < size && 0 <= px < size ==>
                  out[py][px] == if x0 <= px < x0 + m && y0 <= py < y0 + dy then dark else canvas[py][px]
    {
      var row := PaintSpan(out[y0 + dy], x0, m, dark);
      out := out[y0 + dy := row];
      dy := dy + 1;
    }
  }

  /** The rasterization loop: a light canvas of edge `(n + 2b) * m`, then
      each dark module's block painted dark, rows of modules outermost. */
  method Rasterize(grid: Grid, m: nat, b: nat, light: Rgb, dark: Rgb) returns (canvas: seq<seq<Rgb>>)
    requires IsSquare(grid)
    ensures IsCanvas(canvas, (|grid| + 2 * b) * m)
    ensures forall py, px :: 0 <= py < |canvas| && 0 <= px < |canvas| ==>
              canvas[py][px] == PixelColor(grid, m, b, light, dark, px, py)
  {
    var n := |grid|;
    var size := ImageSize(n, m, b);
    canvas := seq(size, _ => seq(size, _ => light));
    var y := 0;
    while y < n
      invariant 0 <= y <= n
      invariant IsCanvas(canvas, size)
      invariant forall py, px :: 0 <= py < size && 0 <= px < size ==>
                  canvas[py][px] == Painted(grid, m, b, light, dark, y, 0, px, py)
    {
      var x := 0;
      while x < n
        invariant 0 <= x <= n
        invariant IsCanvas(canvas, size)
        invariant forall py, px :: 0 <= py < size && 0 <= px < size ==>
                    canvas[py][px] == Painted(grid, m, b, light, dark, y, x, px, py)
      {
        var before := canvas;
        if grid[y][x] {
          BlockFits(n, m, b, x);
          BlockFits(n, m, b, y);
          canvas := PaintBlock(canvas, size, (x + b) * m, (y + b) * m, m, dark);
        }
        forall py, px | 0 <= py < size && 0 <= px < size
          ensures canvas[py][px] == Painted(grid, m, b, light, dark, y, x + 1, px, py)
        {
          PaintStep(grid, m, b, light, dark, y, x, px, py);
        }
        x := x + 1;
      }
      y := y + 1;
    }
  }
}
