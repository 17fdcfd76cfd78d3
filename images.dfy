/**
 * Images as the editor sees them: a mode tag and a grid of pixels, with the
 * three pixel primitives whose meaning the editor depends on written out
 * (Pillow's `crop`, `paste` and a builder used by the rectangle fill).
 * Images are values: every transform makes a new one, nothing is mutated.
 */
module Images {

  type Byte = x: int | 0 <= x < 256

  /** One pixel, as four 8-bit channels; an RGB image ignores the alpha channel. */
  datatype Pixel = Pixel(r: Byte, g: Byte, b: Byte, a: Byte)

  /** What Pillow's `crop` puts where the crop box lies outside the source. */
  const Blank := Pixel(0, 0, 0, 0)

  /** Pillow's image mode; the editor only ever asks for RGB or RGBA. */
  datatype Mode = RGB | RGBA | OtherMode(name: string)

  /** Row-major pixel grid: `rows[y][x]` is the pixel at column x, row y. */
  datatype Bitmap = Bitmap(mode: Mode, width: int, height: int, rows: seq<seq<Pixel>>) {
    predicate WellFormed() {
      && width > 0
      && height > 0
      && |rows| == height
      && forall y :: 0 <= y < |rows| ==> |rows[y]| == width
    }
  }

  /** An image always has a positive width and height. */
  type Image = b: Bitmap | b.WellFormed() witness Bitmap(RGB, 1, 1, [[Pixel(0, 0, 0, 255)]])

  /** A mouse position and a selection rectangle `(x1, y1, x2, y2)`, as the GUI reports them. */
  datatype Point = Point(x: int, y: int)
  datatype Area = Area(x1: int, y1: int, x2: int, y2: int)

  predicate Inside(im: Image, x: int, y: int) {
    0 <= x < im.width && 0 <= y < im.height
  }

  function At(im: Image, x: int, y: int): Pixel
    requires Inside(im, x, y)
  {
    im.rows[y][x]
  }

  /** The pixel at (x, y), or `Blank` off the image. */
  function PixelOr(im: Image, x: int, y: int): (p: Pixel)
    ensures Inside(im, x, y) ==> p == At(im, x, y)
    ensures !Inside(im, x, y) ==> p == Blank
  {
    if Inside(im, x, y) then At(im, x, y) else Blank
  }

  /** The image of the given mode and size whose pixel (x, y) is `f(x, y)`. */
  function Build(mode: Mode, w: int, h: int, f: (int, int) -> Pixel): (r: Image)
    requires w > 0 && h > 0
    ensures r.mode == mode && r.width == w && r.height == h
    ensures forall x, y :: 0 <= x < w && 0 <= y < h ==> At(r, x, y) == f(x, y)
  {
    Bitmap(mode, w, h, seq(h, y => seq(w, x => f(x, y))))
  }

  /** True when the two images have the same mode and size. */
  predicate SameShape(a: Image, b: Image) {
    a.mode == b.mode && a.width == b.width && a.height == b.height
  }

  /**
   * Same shape and the same red, green and blue channels everywhere (what
   * survives a round trip through a format without alpha).
   */
  ghost predicate SameColours(a: Image, b: Image) {
    && SameShape(a, b)
    && forall x, y :: Inside(a, x, y) ==>
         At(a, x, y).r == At(b, x, y).r && At(a, x, y).g == At(b, x, y).g && At(a, x, y).b == At(b, x, y).b
  }

  /** Two images of the same shape are equal when they agree on every pixel. */
  lemma {:induction false} PixelwiseEqual(a: Image, b: Image)
    requires SameShape(a, b)
    requires forall x, y :: Inside(a, x, y) ==> At(a, x, y) == At(b, x, y)
    ensures a == b
  {
    forall y | 0 <= y < a.height
      ensures a.rows[y] == b.rows[y]
    {
      forall x | 0 <= x < a.width
        ensures a.rows[y][x] == b.rows[y][x]
      {
        assert At(a, x, y) == At(b, x, y);
      }
    }
  }

  /**
   * Pillow's `crop(box)`: an image of the box's size whose pixel (i, j) is the
   * source pixel (x1 + i, y1 + j), or blank where the box leaves the source.
   */
  function Crop(im: Image, box: Area): (r: Image)
    requires box.x1 < box.x2 && box.y1 < box.y2
    ensures r.mode == im.mode && r.width == box.x2 - box.x1 && r.height == box.y2 - box.y1
    ensures forall i, j :: 0 <= i < r.width && 0 <= j < r.height ==>
              At(r, i, j) == PixelOr(im, box.x1 + i, box.y1 + j)
  {
    Build(im.mode, box.x2 - box.x1, box.y2 - box.y1, (i, j) => PixelOr(im, box.x1 + i, box.y1 + j))
  }

  /**
   * Pillow's `base.paste(patch, (x0, y0))` on a copy of `base`: the patch's
   * pixels replace the base's where they overlap it; the rest is clipped.
   */
  function Paste(base: Image, patch: Image, x0: int, y0: int): (r: Image)
    ensures SameShape(r, base)
    ensures forall x, y :: Inside(base, x, y) ==>
              At(r, x, y) == if Inside(patch, x - x0, y - y0) then At(patch, x - x0, y - y0) else At(base, x, y)
  {
    Build(base.mode, base.width, base.height,
          (x, y) => if Inside(patch, x - x0, y - y0) then At(patch, x - x0, y - y0) else PixelOr(base, x, y))
  }

  /** Cropping a box and pasting it back where it came from gives the image back. */
  lemma {:induction false} PasteCropIdentity(im: Image, box: Area)
    requires box.x1 < box.x2 && box.y1 < box.y2
    ensures Paste(im, Crop(im, box), box.x1, box.y1) == im
  {
    var c := Crop(im, box);
    var r := Paste(im, c, box.x1, box.y1);
    forall x, y | Inside(im, x, y)
      ensures At(r, x, y) == At(im, x, y)
    {
      CropAgrees(im, box, x, y);
      PasteAgreeing(im, c, box.x1, box.y1, x, y);
    }
    PixelwiseEqual(r, im);
  }

  lemma CropAgrees(im: Image, box: Area, x: int, y: int)
    requires box.x1 < box.x2 && box.y1 < box.y2 && Inside(im, x, y)
    ensures Inside(Crop(im, box), x - box.x1, y - box.y1) ==> At(Crop(im, box), x - box.x1, y - box.y1) == At(im, x, y)
  {
  }

  lemma PasteAgreeing(base: Image, patch: Image, x0: int, y0: int, x: int, y: int)
    requires Inside(base, x, y)
    requires Inside(patch, x - x0, y - y0) ==> At(patch, x - x0, y - y0) == At(base, x, y)
    ensures At(Paste(base, patch, x0, y0), x, y) == At(base, x, y)
  {
  }

  /** A box inside the image crops to a window of it: every pixel of the result is the image's, none is filled in. */
  lemma {:induction false} CropInside(im: Image, box: Area)
    requires 0 <= box.x1 < box.x2 <= im.width && 0 <= box.y1 < box.y2 <= im.height
    ensures forall i, j :: 0 <= i < box.x2 - box.x1 && 0 <= j < box.y2 - box.y1 ==>
              At(Crop(im, box), i, j) == At(im, box.x1 + i, box.y1 + j)
  {
    forall i, j | 0 <= i < box.x2 - box.x1 && 0 <= j < box.y2 - box.y1
      ensures At(Crop(im, box), i, j) == At(im, box.x1 + i, box.y1 + j)
    {
      assert At(Crop(im, box), i, j) == PixelOr(im, box.x1 + i, box.y1 + j);
    }
  }
}
