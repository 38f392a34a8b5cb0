/**
 * Raster images as values, and the imaging library's drawing calls.
 *
 * An image is its width, its height and its rows of RGBA pixels. The library's
 * rasterising primitives (line, rectangle, ellipse, polygon, flood fill), its
 * resampling `resize` and its `alpha_composite` have no pixel-level semantics here:
 * they are the three functions of a `Library` value that the drawing window is given.
 */
module Raster {
  datatype Rgba = Rgba(r: int, g: int, b: int, a: int)

  const Transparent := Rgba(0, 0, 0, 0)
  const OpaqueWhite := Rgba(255, 255, 255, 255)

  datatype Image = Image(width: nat, height: nat, rows: seq<seq<Rgba>>)

  /** `rows` holds `height` rows of `width` pixels each. */
  ghost predicate WellFormed(im: Image) {
    |im.rows| == im.height && forall y :: 0 <= y < |im.rows| ==> |im.rows[y]| == im.width
  }

  /** `Image.new("RGBA", (w, h), c)`. */
  function Blank(w: nat, h: nat, c: Rgba): (im: Image)
    ensures WellFormed(im) && im.width == w && im.height == h
    ensures forall y, x :: 0 <= y < h && 0 <= x < w ==> im.rows[y][x] == c
  {
    Image(w, h, seq(h, _ => seq(w, _ => c)))
  }

  /** Filling the rectangle from (0, 0) to (maxX, maxY), both corners included, with
      transparent pixels (`draw.rectangle([0, 0, maxX, maxY], fill=(0, 0, 0, 0))` on an
      RGBA image, which overwrites rather than blends). Pixels outside the image are clipped. */
  function ClearRegion(im: Image, maxX: nat, maxY: nat): (r: Image)
    ensures r.width == im.width && r.height == im.height && |r.rows| == |im.rows|
    ensures forall y :: 0 <= y < |im.rows| ==> |r.rows[y]| == |im.rows[y]|
    ensures WellFormed(im) ==> WellFormed(r)
    ensures forall y, x :: 0 <= y < |im.rows| && 0 <= x < |im.rows[y]| ==>
              r.rows[y][x] == (if x <= maxX && y <= maxY then Transparent else im.rows[y][x])
  {
    Image(im.width, im.height,
          seq(|im.rows|, y requires 0 <= y < |im.rows| =>
            seq(|im.rows[y]|, x requires 0 <= x < |im.rows[y]| =>
              if x <= maxX && y <= maxY then Transparent else im.rows[y][x])))
  }

  /** `convert("RGB")`: the alpha channel is dropped; the result is shown with alpha 255. */
  function DropAlpha(im: Image): (r: Image)
    ensures r.width == im.width && r.height == im.height && |r.rows| == |im.rows|
    ensures forall y :: 0 <= y < |im.rows| ==> |r.rows[y]| == |im.rows[y]|
    ensures forall y, x :: 0 <= y < |im.rows| && 0 <= x < |im.rows[y]| ==>
              r.rows[y][x] == im.rows[y][x].(a := 255)
  {
    Image(im.width, im.height,
          seq(|im.rows|, y requires 0 <= y < |im.rows| =>
            seq(|im.rows[y]|, x requires 0 <= x < |im.rows[y]| => im.rows[y][x].(a := 255))))
  }

  /** The outline shapes of the shape tools. */
  datatype Shape = LineShape | RectangleShape | OvalShape | StarShape | HeartShape

  /** One drawing call on a layer's image. `Stroke` is an unfilled outline of `shape`
      between the corners (x1, y1) and (x2, y2); for `LineShape` it is the segment
      between the two points. The star and heart vertices are computed by the window
      from the two corners; they are not part of this model. */
  datatype DrawCommand =
    | Stroke(shape: Shape, x1: int, y1: int, x2: int, y2: int, ink: Rgba, width: int)
    | FloodFill(x: int, y: int, ink: Rgba)

  /** The imaging library's calls, which the model does not look into. */
  datatype Library = Library(
    draw: (Image, DrawCommand) -> Image,
    resize: (Image, nat, nat) -> Image,
    alphaComposite: (Image, Image) -> Image)

  /** What the library documents for `resize`: the result has the requested size. */
  ghost predicate ResizeHasRequestedSize(lib: Library) {
    forall im, w, h :: lib.resize(im, w, h).width == w && lib.resize(im, w, h).height == h
  }

  lemma ClearedCanvasIsTransparent(im: Image, maxX: nat, maxY: nat)
    requires WellFormed(im) && im.width <= maxX + 1 && im.height <= maxY + 1
    ensures forall y, x :: 0 <= y < im.height && 0 <= x < im.width ==>
              ClearRegion(im, maxX, maxY).rows[y][x] == Transparent
  {
  }
}
