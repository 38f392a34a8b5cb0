/**
 * Flattening the layer stack. The window starts from an opaque white image of the
 * canvas size and applies the library's `alpha_composite` once per layer, taking the
 * layers in reverse order: the last (bottom) layer first, the first (top) layer last.
 */
module Compositor {
  import opened Raster
  import opened LayerStack

  type Blend = (Image, Image) -> Image

  /** The opaque white image the fold starts from. */
  function Backdrop(w: nat, h: nat): Image {
    Blank(w, h, OpaqueWhite)
  }

  /** The layers composited over `backdrop`: everything below the top layer first,
      then the top layer over that. */
  function Composite(layers: seq<Layer>, backdrop: Image, over: Blend): (r: Image)
    ensures r == FoldOver(backdrop, Reverse(Images(layers)), over)
    decreases |layers|
  {
    if layers == [] then backdrop
    else
      assert Images(layers)[1..] == Images(layers[1..]);
      FoldOverAppend(backdrop, Reverse(Images(layers[1..])), layers[0].image, over);
      over(Composite(layers[1..], backdrop, over), layers[0].image)
  }

  function Images(layers: seq<Layer>): (r: seq<Image>)
    ensures |r| == |layers| && forall i :: 0 <= i < |layers| ==> r[i] == layers[i].image
  {
    seq(|layers|, i requires 0 <= i < |layers| => layers[i].image)
  }

  function Reverse<T>(s: seq<T>): (r: seq<T>)
    ensures |r| == |s|
    ensures forall i :: 0 <= i < |s| ==> r[i] == s[|s| - 1 - i]
  {
    if s == [] then [] else Reverse(s[1..]) + [s[0]]
  }

  /** The loop `for image in images: acc = over(acc, image)`, left to right. */
  function FoldOver(acc: Image, images: seq<Image>, over: Blend): Image
    decreases |images|
  {
    if images == [] then acc else FoldOver(over(acc, images[0]), images[1..], over)
  }

  lemma {:induction false} FoldOverAppend(acc: Image, images: seq<Image>, last: Image, over: Blend)
    ensures FoldOver(acc, images + [last], over) == over(FoldOver(acc, images, over), last)
    decreases |images|
  {
    if images != [] {
      assert (images + [last])[1..] == images[1..] + [last];
      FoldOverAppend(over(acc, images[0]), images[1..], last, over);
    }
  }

  /** Compositing the lower part of the stack first and using that as the backdrop for
      the upper part gives the same image as compositing the whole stack. */
  lemma {:induction false} CompositeSplit(top: seq<Layer>, bottom: seq<Layer>, backdrop: Image, over: Blend)
    ensures Composite(top + bottom, backdrop, over) == Composite(top, Composite(bottom, backdrop, over), over)
    decreases |top|
  {
    if top == [] {
      assert top + bottom == bottom;
    } else {
      assert (top + bottom)[1..] == top[1..] + bottom;
      CompositeSplit(top[1..], bottom, backdrop, over);
    }
  }

  /** The bottom (last) layer is the first one blended onto the backdrop. */
  lemma BottomLayerFirst(layers: seq<Layer>, backdrop: Image, over: Blend)
    requires |layers| >= 1
    ensures Composite(layers, backdrop, over) ==
            Composite(layers[..|layers| - 1], over(backdrop, layers[|layers| - 1].image), over)
  {
    var n := |layers|;
    assert layers == layers[..n - 1] + [layers[n - 1]];
    CompositeSplit(layers[..n - 1], [layers[n - 1]], backdrop, over);
  }

  /** Only the images and their order matter, not the layer names. */
  lemma {:induction false} CompositeIgnoresNames(a: seq<Layer>, b: seq<Layer>, backdrop: Image, over: Blend)
    requires Images(a) == Images(b)
    ensures Composite(a, backdrop, over) == Composite(b, backdrop, over)
    decreases |a|
  {
    if a != [] {
      assert a[0].image == Images(a)[0] == Images(b)[0] == b[0].image;
      assert Images(a[1..]) == Images(a)[1..] == Images(b)[1..] == Images(b[1..]);
      CompositeIgnoresNames(a[1..], b[1..], backdrop, over);
    }
  }
}
