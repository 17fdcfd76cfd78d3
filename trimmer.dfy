/**
 * The trim tool: clamp the selected box to the image and crop to it,
 * returning the image unchanged when nothing of the box is left. The tool
 * remembers the last area it was given, as given (not clamped).
 */
module Trimmer {
  import opened Wrappers
  import opened Images

  function Min(a: int, b: int): int { if a < b then a else b }
  function Max(a: int, b: int): int { if a < b then b else a }

  /**
   * The box after clamping: the left and top edges to the last pixel, the
   * right and bottom edges to the image's width and height, none below 0.
   */
  function Clamp(im: Image, a: Area): (c: Area)
    ensures 0 <= c.x1 <= im.width - 1 && 0 <= c.y1 <= im.height - 1
    ensures 0 <= c.x2 <= im.width && 0 <= c.y2 <= im.height
  {
    Area(Max(0, Min(a.x1, im.width - 1)), Max(0, Min(a.y1, im.height - 1)),
         Max(0, Min(a.x2, im.width)), Max(0, Min(a.y2, im.height)))
  }

  /** Whether the clamped box is empty, in which case the image comes back. */
  predicate Degenerate(c: Area) {
    c.x2 <= c.x1 || c.y2 <= c.y1
  }

  /** The image `process` returns once its guard has passed. */
  function Trim(im: Image, area: Area): Image {
    var c := Clamp(im, area);
    if Degenerate(c) then im else Crop(im, c)
  }

  /** A box already inside the image is left as it is by clamping. */
  lemma ClampKeepsInBounds(im: Image, a: Area)
    requires 0 <= a.x1 < im.width && 0 <= a.y1 < im.height
    requires 0 <= a.x2 <= im.width && 0 <= a.y2 <= im.height
    ensures Clamp(im, a) == a
  {
  }

  /** Clamping is idempotent. */
  lemma ClampIdempotent(im: Image, a: Area)
    ensures Clamp(im, Clamp(im, a)) == Clamp(im, a)
  {
    ClampKeepsInBounds(im, Clamp(im, a));
  }

  /**
   * `r` is the part of `im` inside the box `c`, which lies within `im`:
   * same mode, the box's size, and every pixel taken from `im`.
   */
  predicate WindowOf(r: Image, im: Image, c: Area) {
    && 0 <= c.x1 < c.x2 <= im.width && 0 <= c.y1 < c.y2 <= im.height
    && r.mode == im.mode
    && r.width == c.x2 - c.x1 && r.height == c.y2 - c.y1
    && forall i, j :: 0 <= i < r.width && 0 <= j < r.height ==> At(r, i, j) == At(im, c.x1 + i, c.y1 + j)
  }

  /**
   * Unless the clamped box is empty (and the input comes back), the result
   * has the input's mode, a size between 1 by 1 and the input's, and is the
   * window of the input at the clamped box: every pixel is a pixel of the
   * input, none is filled in.
   */
  lemma {:induction false} TrimMeaning(im: Image, area: Area)
    ensures Degenerate(Clamp(im, area)) ==> Trim(im, area) == im
    ensures !Degenerate(Clamp(im, area)) ==> WindowOf(Trim(im, area), im, Clamp(im, area))
    ensures 1 <= Trim(im, area).width <= im.width && 1 <= Trim(im, area).height <= im.height
  {
    var c := Clamp(im, area);
    if !Degenerate(c) {
      CropInside(im, c);
      assert WindowOf(Crop(im, c), im, c);
    }
  }

  /** A box that covers the whole image (or more) trims nothing away. */
  lemma {:induction false} TrimWholeImage(im: Image, area: Area)
    requires area.x1 <= 0 && area.y1 <= 0 && area.x2 >= im.width && area.y2 >= im.height
    ensures Trim(im, area) == im
  {
    var c := Clamp(im, area);
    assert c == Area(0, 0, im.width, im.height);
    TrimMeaning(im, area);
    var r := Trim(im, area);
    PixelwiseEqual(r, im);
  }

  /** Trimming again with the box of the remaining picture changes nothing. */
  lemma {:induction false} TrimIdempotent(im: Image, area: Area)
    ensures var r := Trim(im, area);
      Trim(r, Area(0, 0, r.width, r.height)) == r
  {
    var r := Trim(im, area);
    TrimWholeImage(r, Area(0, 0, r.width, r.height));
  }

  /** What the tool remembers: `last_area`. */
  datatype TrimState = TrimState(lastArea: Option<Area>)

  const InitialState := TrimState(None)

  /** The tool's state and the returned image after `process(image, area)`. */
  function ProcessOutcome(st: TrimState, image: Option<Image>, area: Option<Area>): (TrimState, Option<Image>) {
    if image.None? || area.None? then (st, image)
    else (TrimState(area), Some(Trim(image.value, area.value)))
  }

  /** The tool's state and the returned image after `apply_last_settings(image)`. */
  function ApplyLastOutcome(st: TrimState, image: Option<Image>): (TrimState, Option<Image>) {
    if st.lastArea.Some? && image.Some? then ProcessOutcome(st, image, st.lastArea)
    else (st, image)
  }

  /**
   * `process` with no image or no area returns its input and remembers
   * nothing; otherwise it remembers the area as given, even one that
   * clamps to nothing.
   */
  lemma ProcessRemembers(st: TrimState, image: Option<Image>, area: Option<Area>)
    ensures var (st', r) := ProcessOutcome(st, image, area);
      && (image.None? || area.None? ==> st' == st && r == image)
      && (image.Some? && area.Some? ==> st'.lastArea == area && r.Some?)
  {
  }

  /** Re-applying the last settings trims with the remembered box and leaves the tool's state unchanged. */
  lemma ApplyLastKeepsState(st: TrimState, image: Option<Image>)
    ensures ApplyLastOutcome(st, image).0 == st
    ensures st.lastArea.None? || image.None? ==> ApplyLastOutcome(st, image).1 == image
    ensures st.lastArea.Some? && image.Some? ==>
              ApplyLastOutcome(st, image).1 == Some(Trim(image.value, st.lastArea.value))
  {
  }

  class TrimTool {
    var lastArea: Option<Area>

    function State(): TrimState
      reads this
    {
      TrimState(lastArea)
    }

    constructor()
      ensures State() == InitialState
    {
      lastArea := None;
    }

    method Process(image: Option<Image>, area: Option<Area>) returns (r: Option<Image>)
      modifies this
      ensures (State(), r) == ProcessOutcome(old(State()), image, area)
    {
      if image.None? || area.None? {
        return image;
      }
      lastArea := area;
      r := Some(Trim(image.value, area.value));
    }

    method ApplyLastSettings(image: Option<Image>) returns (r: Option<Image>)
      modifies this
      ensures (State(), r) == ApplyLastOutcome(old(State()), image)
    {
      if lastArea.Some? && image.Some? {
        r := Process(image, lastArea);
      } else {
        r := image;
      }
    }
  }
}
