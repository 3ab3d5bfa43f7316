# QR code compositor — a Dafny model

This project models the rendering core of a small QR code generator: the
function `create_qr_image`, which turns a square grid of dark and light
modules into a picture, and the colour parser `hex_to_rgb` that feeds it.
The encoder that makes the grid and the interactive front end are outside
the model.

What the model covers, module by module:

- `Color`: `hex_to_rgb`. Leading `#` characters are stripped. Python's
  clamping slices are used, and `int(…, 16)` is modelled on the short slices
  it receives. `ToHex` is the inverse.
- `Raster`: the module rasterizer. `PixelColor` is the reference colour of a
  canvas pixel. `Rasterize` is the four-level painting loop over an
  immutable pixel buffer, proved equal to `PixelColor`.
- `Geometry`: logo geometry. This covers the `thumbnail` bound, the centred
  offset, the frame width and rectangle, the corner radius, and the edge of
  the gradient square.
- `Halo`: the "Gradient Halo" alpha ramp. It is a function of a real
  distance. Which zone a pixel falls in is decided exactly on integers.
- `Gradient`: the "Radial Gradient" rings, with their bounding boxes and
  fill colours.
- `Compositor`: the whole render as an ordered list of image operations. It
  covers the canvas mode, the background steps, the frame, the logo paste
  and the final flattening to RGB.
- `Numeric`: Python's `int()` (truncation) and `//` (floor division) on
  exact values.
- `Wrappers`: `Option` and `Result`.

## Model

| member | source | states |
|---|---|---|
| Color.StripHashes | qr_code_app.py:12 | the result is the input with exactly its leading run of `#` removed: input = that many `#` followed by the result, and the result does not start with `#` |
| Color.Slice | qr_code_app.py:13 | Python's `s[i:j]` for i ≤ j: the length is clamped to the string; within bounds it is `s[i..j]`; a slice running past the end is the suffix from i; a slice starting past the end is empty |
| Color.ParsePair | qr_code_app.py:13 | `int(s, 16)` on a slice of at most two characters, every case; a blank is one of the characters `int` skips (tab, line feed, vertical tab, form feed, carriage return, space), and the separators 28-31 are not blanks: the empty slice and two blanks fail; one character, or a digit with a blank before or after it, gives the digit's value; `+d` gives d and `-d` gives −d; two hex digits give 16·first + second; a first character that is not a digit, blank or sign fails, and so does a second that is not a digit or blank (so "ZZ", "0x", "_1", "1-" and a lone sign fail); every accepted value lies in (-16, 256) |
| Color.HexToRgb | qr_code_app.py:10-13 | fails whenever fewer than five characters remain after the `#` run (a slice is empty); any parsed channel lies in (-16, 256) |
| Color.SixDigits | qr_code_app.py:12-13 | any number of `#`, then six hex digits, then anything: channel j is the base-16 value of pair j, and the colour is in [0,255]³ |
| Color.IgnoresTail | qr_code_app.py:13 | once six characters remain after the `#` run, appending text never changes the result |
| Color.HashIsIgnored | qr_code_app.py:12 | prefixing `#` never changes the result |
| Color.FiveDigits | qr_code_app.py:13 | five hex digits still parse; the third slice clamps to one character, so blue is the value of the fifth digit alone |
| Color.BadCharRejected | qr_code_app.py:12-13 | after any `#` run, a character among the next six that is not a hex digit, blank or sign, or a sign in the second place of its pair, makes the parse fail |
| Color.SeparatorsRejected | qr_code_app.py:12-13 | pairs holding the information separator 28 (`\x1c0` three times) are rejected, after any `#` run and before any tail |
| Color.LettersRejected | qr_code_app.py:12-13 | `ZZZZZZ`, after any `#` run and before any tail, is rejected |
| Color.PaddedPairs | qr_code_app.py:13 | signs and blanks inside pairs are read as `int` reads them: `#+1 2-3` parses to (1, 2, -3) |
| Color.SignedPairAccepted | qr_code_app.py:13 | a sign inside a pair is accepted: `-10000` parses to (-1, 0, 0), so parsed channels need not be in range |
| Color.RoundTrip | qr_code_app.py:10-13 | parsing the `#rrggbb` form of every in-range colour gives that colour back |
| Raster.PixelColor | qr_code_app.py:26-36 | every pixel of the reference canvas has either the light or the dark colour; which one is fixed by `Raster.PixelColorIsBlockFill` |
| Raster.Rasterize | qr_code_app.py:21-36 | the painted canvas has edge (n + 2b)·m and every pixel equals the reference colour `PixelColor` |
| Raster.PaintBlock | qr_code_app.py:34-36 | exactly the m-by-m block at the given corner becomes dark; every other pixel is unchanged |
| Raster.PaintSpan | qr_code_app.py:35-36 | exactly the m pixels from the given column become dark; the rest of the row is unchanged |
| Raster.PixelColorIsBlockFill | qr_code_app.py:31-36 | a pixel has the dark colour iff it lies in the m-by-m block of some dark module, and the light colour otherwise |
| Raster.QuietZoneIsLight | qr_code_app.py:21-36 | every pixel within b·m of an edge of the canvas is light |
| Raster.WriteInBounds | qr_code_app.py:31-36 | every pixel the loop writes, ((x+b)·m+dx, (y+b)·m+dy), lies in [0, S) on both axes |
| Geometry.LogoMaxSize | qr_code_app.py:40-41 | for a non-negative ratio, the bound is the floor of edge·ratio |
| Geometry.DefaultMaxSize | qr_code_app.py:40-41 | with the default ratio 0.25 the bound is edge / 4, rounded down |
| Geometry.CenterOffset | qr_code_app.py:44-45 | the offset is the floor of (S − w)/2; if w ≤ S the extent lies inside [0, S); the right margin exceeds the left by 0 or 1 |
| Geometry.LogoInsideCanvas | qr_code_app.py:44-45 | a logo no larger than the canvas is placed inside it on both axes, and is centred to within one pixel |
| Geometry.BorderWidth | qr_code_app.py:93 | the width is max(1, int(0.75·m)) on exact values, is at least 1, and for 3m ≥ 4 is the floor of 3m/4 |
| Geometry.FrameMargins | qr_code_app.py:94-108 | the frame rectangle extends exactly the border width beyond the logo rectangle on all four sides |
| Geometry.FrameEnclosesLogo | qr_code_app.py:93-94 | the frame strictly surrounds the logo and is at least two pixels larger per axis |
| Geometry.CornerRadius | qr_code_app.py:86 | the radius is int(k/5) for shorter side k, the floor of k/5, and at most half of k |
| Geometry.GradientEdge | qr_code_app.py:65 | the edge is int(6M/5) for longer logo side M, the floor of 6M/5, and at least M |
| Geometry.GradientCoversLogo | qr_code_app.py:65-75 | the gradient square, centred with the same floor rule, covers the logo's rectangle on both axes |
| Halo.Alpha | qr_code_app.py:50-60 | alpha lies in [0,255]; it is 0 for d ≤ inner and 255 for d beyond inner and ≥ outer; in the open annulus it is the floor of 255·(d − inner)/(2m) and at most 254 |
| Halo.AlphaMonotone | qr_code_app.py:57-60 | alpha never decreases as the distance grows |
| Halo.ZoneMatchesDistance | qr_code_app.py:50-60 | the integer test on (2px − S)² + (2py − S)² agrees with the distance comparisons: cut-out iff d ≤ inner, opaque iff d > inner and d ≥ outer, with alpha 0, in [0,254] and 255 in the three zones |
| Numeric.Trunc | qr_code_app.py:41 | `int(x)` truncates toward zero: for x ≥ 0 it is the largest integer ≤ x, for x < 0 the smallest integer ≥ x (also used at lines 65, 71-73, 86 and 93) |
| Numeric.FloorDiv | qr_code_app.py:44-45 | `a // b` for b > 0 is the unique q with b·q ≤ a < b·q + b (also used at line 75) |
| Gradient.Rings | qr_code_app.py:69-74 | one ring per `i in range(g)`, in drawing order; ring i has box (i, i, g−1−i, g−1−i), each channel equal to `RingChannel` of that channel, and a colour between dark and light |
| Gradient.RingChannel | qr_code_app.py:69-73 | the channel is int(L·i/g + D·(1 − i/g)) on exact values; ring 0 has the dark channel; every channel lies between the dark and light channels |
| Gradient.RingBox | qr_code_app.py:74 | ring i's box is well-formed iff 2i + 1 ≤ g, and it is a square of side g − 1 − 2i |
| Gradient.ChannelTowardLight | qr_code_app.py:69-73 | as the ring index grows, each channel moves monotonically toward the light channel and never passes it |
| Gradient.RingsOrdered | qr_code_app.py:69-74 | for rings i ≤ j, ring j's box lies inside ring i's box; ring j's colour is channel-wise no farther from the light colour; its channels lie between dark and light |
| Gradient.FirstRingIsDark | qr_code_app.py:69-74 | the first ring drawn covers the whole buffer and has exactly the dark colour |
| Gradient.LastRingInverted | qr_code_app.py:69-74 | for any buffer of two or more pixels, the last ring's box is inverted |
| Compositor.BackgroundOf | qr_code_app.py:48-64 | the halo is chosen iff the style is exactly "Gradient Halo" and the gradient iff it is exactly "Radial Gradient"; anything else, or no style, adds no background step |
| Compositor.ShapeOf | qr_code_app.py:78-89 | Circle iff the shape is exactly "Circle", rounded iff exactly "Rounded Rectangle"; a missing shape or any other string is a square |
| Compositor.MaskFor | qr_code_app.py:80-105 | the mask has the image's size; it is an ellipse iff the shape is Circle and rounded iff Rounded Rectangle; the radius is the floor of a fifth of the shorter side and at most half of it; the outline's box is `(0, 0, w, h)`, which spans one pixel more than the mask on each axis because both corners count |
| Compositor.Render | qr_code_app.py:15-119 | the canvas edge is (n + 2b)·m; the canvas is RGBA iff the style is "Gradient Halo"; the returned image is always RGB; the light canvas comes first, then the module painting |
| Compositor.StepsInOrder | qr_code_app.py:23-117 | steps follow the code's order and no kind repeats: canvas, modules, fit, background, frame, logo, flatten; so the logo is the last paste |
| Compositor.LayersPresent | qr_code_app.py:24-117 | halo cut iff a logo and "Gradient Halo"; gradient iff a logo and "Radial Gradient"; frame iff a logo and the border flag; logo paste iff a logo; a flatten onto the light colour iff RGBA, and then it is the last step |
| Compositor.LogoLayers | qr_code_app.py:40-111 | the logo steps contain each background step for exactly its style, a frame for exactly the border flag, always the logo paste, and never a flatten |
| Compositor.FrameFitsLogo | qr_code_app.py:92-111 | with a border, a dark frame in the canvas's mode is pasted before the logo; it surrounds the logo rectangle by exactly the border width on every side; its mask has the frame's size, and its corner radius comes from the frame's own shorter side |
| Compositor.DefaultOptions | qr_code_app.py:24-92 | with no options at all the render is: an RGB canvas, the modules, a fit to edge/4, and a logo paste through a full rectangular mask of the logo's size, with nothing else |

## Left out

- `main` is not modelled: the Streamlit widgets, warnings, error display
  and download button are user interface and I/O.
- The QR encoder (`QrSegment.make_segments`, `QrCode.encode_segments`,
  `DataTooLongError`) is not part of this model. The module grid is an
  input: a square `seq<seq<bool>>`, where `grid[y][x]` is `get_module(x, y)`.
- PIL's pixel work is not modelled. This covers how `ellipse`, `rectangle`
  and `rounded_rectangle` rasterize a mask, the blend arithmetic of
  `paste`, `putalpha`, and the RGBA-onto-RGB flatten. Each step keeps what
  it passes to PIL: a mask keeps its size, its outline and the box the
  outline is drawn in. The pixels PIL fills for that box are not modelled.
  The box includes both corners, so it overhangs the mask by one pixel on
  the right and at the bottom, and PIL clips it there.
- The halo step records the canvas edge, the logo's longer side and the
  module size. `Halo` gives the alpha of each pixel, but the step does not
  hold the alpha mask itself.
- `thumbnail` is not modelled. The plan records the bound it is given, and
  the logo enters as the size `thumbnail` produced. The call also changes
  the caller's image in place; that is not modelled either.
- Images of rings whose bounding box is inverted (past the middle of the
  gradient buffer) are not modelled. What PIL does with such a box is not
  visible in the renderer; the model only proves which rings have one.
- Halo.Alpha: the distance is an exact real parameter. numpy's float
  `sqrt`, the float radii and the `uint8` cast are modelled on exact values,
  with the cast as truncation. Bit-equality with the float mask is not
  claimed.
- Gradient.RingChannel: the ring colour is computed on the exact rational.
  The float expression in the code can come out one lower where that
  rational is an integer.
- Geometry.CornerRadius: the float factor 0.2 is modelled as the exact
  rational 1/5.
- Geometry.GradientEdge: the float factor 1.2 is modelled as the exact
  rational 6/5.
- Geometry.LogoMaxSize: the size ratio is an exact real, not a float.
- Color.ParsePair: Python's `int` also accepts non-ASCII decimal digits and
  Unicode spaces. The model rejects every non-ASCII character.
- The types require the module size and the quiet zone to be natural
  numbers. Negative values, which make PIL raise or index out of range, are
  not modelled.
- Decoding the uploaded logo (`Image.open`), PNG encoding and `BytesIO`
  are I/O.

## Behaviour of the code

The model follows these behaviours of the renderer, which a reader may not
expect.

- Ring 0 of the radial gradient, at the rim, is dark. Later rings move
  toward the light colour at the centre.
- Gradient channels are truncated with `int()` and never clamped.
- The border width `int(module_size * 0.75)` truncates rather than rounds.
- `hex_to_rgb` does not insist on six hex digits. Five digits parse, and so
  do pairs carrying a sign or a blank (`Color.FiveDigits`,
  `Color.PaddedPairs`).
- The renderer checks no parameters. A zero module size or an empty logo is
  not rejected.
