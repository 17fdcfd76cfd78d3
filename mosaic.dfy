/**
 * The mosaic tool: shrink the selected region by a scale factor derived
 * from the strength, blow it back up with nearest-neighbour sampling and
 * paste it over a copy of the image. The tool remembers the last area and
 * strength it was given.
 */
module Mosaic {
  import opened Wrappers
  import opened Images
  import opened Imaging

  /**
   * `max(1, int(50 / strength))`. Python's `int` truncates towards zero, so
   * a negative strength gives a non-positive quotient and the factor 1.
   */
  function ScaleFactor(strength: int): (f: int)
    requires strength != 0
    ensures f >= 1
  {
    var q := if strength > 0 then 50 / strength else -(50 / -strength);
    if q > 1 then q else 1
  }

  /** For a strength in the slider's range the factor is exactly the floor of 50 / strength. */
  lemma ScaleFactorIsQuotient(strength: int)
    requires 1 <= strength <= 50
    ensures ScaleFactor(strength) * strength <= 50 < (ScaleFactor(strength) + 1) * strength
  {
    var q := 50 / strength;
    assert 50 == q * strength + 50 % strength;
    assert q >= 1;
    assert ScaleFactor(strength) == q;
  }

  /**
   * The factor is 1 (no visible blur) exactly for a strength above 25 or a
   * negative one; strength and blur run in opposite directions.
   */
  lemma {:induction false} ScaleFactorIsOne(strength: int)
    requires strength != 0
    ensures ScaleFactor(strength) == 1 <==> strength < 0 || strength > 25
  {
    if 0 < strength <= 25 {
      var q := 50 / strength;
      assert 50 == q * strength + 50 % strength;
      assert q >= 2;
    } else if strength > 25 {
      var q := 50 / strength;
      assert 50 == q * strength + 50 % strength;
      assert q < 2;
    }
  }

  /** A stronger (larger) strength never gives a larger factor. */
  lemma {:induction false} ScaleFactorAntitone(s: int, t: int)
    requires 0 < s <= t
    ensures ScaleFactor(t) <= ScaleFactor(s)
  {
    if t <= 50 {
      var fs, ft := ScaleFactor(s), ScaleFactor(t);
      ScaleFactorIsQuotient(s);
      ScaleFactorIsQuotient(t);
      if ft > fs {
        MulMonotone(fs + 1, ft, s, t);
        assert false;
      }
    } else {
      assert 50 / t == 0;
    }
  }

  lemma MulMonotone(a: int, b: int, c: int, d: int)
    requires 0 <= a <= b && 0 <= c <= d
    ensures a * c <= b * d
  {
    assert a * c <= b * c;
    assert b * c <= b * d;
  }

  /** `(max(1, w // f), max(1, h // f))`, the size the region is shrunk to. */
  function SmallSize(w: int, h: int, f: int): (size: (int, int))
    requires w > 0 && h > 0 && f >= 1
    ensures 1 <= size.0 <= w && 1 <= size.1 <= h
    ensures f == 1 ==> size == (w, h)
  {
    (if w / f > 1 then w / f else 1, if h / f > 1 then h / f else 1)
  }

  /**
   * Whether the try block of `process` raises and the input comes back:
   * `50 / 0` raises ZeroDivisionError, `crop` refuses an inverted box and
   * resizing to a zero width or height raises for an empty one.
   */
  predicate Fails(area: Area, strength: int) {
    strength == 0 || area.x2 <= area.x1 || area.y2 <= area.y1
  }

  /** The image `process` returns once its guard has passed. */
  function Pixelate(p: Pillow, im: Image, area: Area, strength: int): Image {
    if Fails(area, strength) then im
    else
      var w, h := area.x2 - area.x1, area.y2 - area.y1;
      var small := SmallSize(w, h, ScaleFactor(strength));
      var blocky := p.resize(p.resize(Crop(im, area), small.0, small.1), w, h);
      Paste(im, blocky, area.x1, area.y1)
  }

  predicate InArea(area: Area, x: int, y: int) {
    area.x1 <= x < area.x2 && area.y1 <= y < area.y2
  }

  /**
   * The result has the input's mode and size, and every pixel outside the
   * area is the input's; when the try block raises, the input comes back.
   */
  lemma {:induction false} PixelateKeepsOutside(p: Pillow, im: Image, area: Area, strength: int)
    requires p.Valid()
    ensures Fails(area, strength) ==> Pixelate(p, im, area, strength) == im
    ensures SameShape(Pixelate(p, im, area, strength), im)
    ensures forall x, y :: Inside(im, x, y) && !InArea(area, x, y) ==>
              At(Pixelate(p, im, area, strength), x, y) == At(im, x, y)
  {
    if !Fails(area, strength) {
      var w, h := area.x2 - area.x1, area.y2 - area.y1;
      var small := SmallSize(w, h, ScaleFactor(strength));
      var blocky := p.resize(p.resize(Crop(im, area), small.0, small.1), w, h);
      assert blocky.width == w && blocky.height == h;
      var r := Paste(im, blocky, area.x1, area.y1);
      forall x, y | Inside(im, x, y) && !InArea(area, x, y)
        ensures At(r, x, y) == At(im, x, y)
      {
        assert !Inside(blocky, x - area.x1, y - area.y1);
      }
    }
  }

  /** With a factor of 1 both resizes return copies, so the image comes back pixel for pixel. */
  lemma {:induction false} PixelateAtFactorOne(p: Pillow, im: Image, area: Area, strength: int)
    requires p.Valid()
    requires strength != 0 && ScaleFactor(strength) == 1
    ensures Pixelate(p, im, area, strength) == im
  {
    if !Fails(area, strength) {
      var region := Crop(im, area);
      assert p.resize(region, region.width, region.height) == region;
      PasteCropIdentity(im, area);
    }
  }

  /** The strength of 50 at the top of the slider leaves the image as it was. */
  lemma {:induction false} FullStrengthIsIdentity(p: Pillow, im: Image, area: Area)
    requires p.Valid()
    ensures Pixelate(p, im, area, 50) == im
  {
    ScaleFactorIsOne(50);
    PixelateAtFactorOne(p, im, area, 50);
  }

  /** What the tool remembers: `last_area` and `last_strength`. */
  datatype MosaicState = MosaicState(lastArea: Option<Area>, lastStrength: int)

  const InitialState := MosaicState(None, 10)

  /** The tool's state and the returned image after `process(image, area, strength)`. */
  function ProcessOutcome(st: MosaicState, p: Pillow, image: Option<Image>, area: Option<Area>, strength: Option<int>)
    : (MosaicState, Option<Image>)
  {
    if image.None? || area.None? then (st, image)
    else
      var s := if strength.Some? then strength.value else st.lastStrength;
      (MosaicState(area, s), Some(Pixelate(p, image.value, area.value, s)))
  }

  /** The tool's state and the returned image after `apply_last_settings(image)`. */
  function ApplyLastOutcome(st: MosaicState, p: Pillow, image: Option<Image>): (MosaicState, Option<Image>) {
    if st.lastArea.Some? && image.Some? then ProcessOutcome(st, p, image, st.lastArea, Some(st.lastStrength))
    else (st, image)
  }

  /**
   * `process` with no image or no area returns its input and remembers
   * nothing; otherwise it remembers the area, and the strength unless none
   * was given, in which case it uses the remembered one.
   */
  lemma ProcessRemembers(st: MosaicState, p: Pillow, image: Option<Image>, area: Option<Area>, strength: Option<int>)
    ensures var (st', r) := ProcessOutcome(st, p, image, area, strength);
      && (image.None? || area.None? ==> st' == st && r == image)
      && (image.Some? && area.Some? ==>
            && st'.lastArea == area
            && st'.lastStrength == (if strength.None? then st.lastStrength else strength.value)
            && r.Some?)
  {
  }

  /**
   * With an image and a valid pillow, `process` returns an image of the
   * input's shape that differs from it only inside the area.
   */
  lemma ProcessKeepsOutside(st: MosaicState, p: Pillow, image: Option<Image>, area: Option<Area>, strength: Option<int>)
    requires p.Valid() && image.Some?
    ensures var r := ProcessOutcome(st, p, image, area, strength).1;
      && r.Some? && SameShape(r.value, image.value)
      && (area.Some? ==> forall x, y :: Inside(image.value, x, y) && !InArea(area.value, x, y) ==>
                           At(r.value, x, y) == At(image.value, x, y))
  {
    if area.Some? {
      var s := if strength.Some? then strength.value else st.lastStrength;
      PixelateKeepsOutside(p, image.value, area.value, s);
    }
  }

  /**
   * Re-applying the last settings redoes the last mosaic on the given image
   * and leaves what the tool remembers unchanged; with no remembered area
   * it returns the image.
   */
  lemma ApplyLastKeepsState(st: MosaicState, p: Pillow, image: Option<Image>)
    ensures ApplyLastOutcome(st, p, image).0 == st
    ensures st.lastArea.None? ==> ApplyLastOutcome(st, p, image).1 == image
    ensures st.lastArea.Some? && image.Some? ==>
              ApplyLastOutcome(st, p, image).1 == Some(Pixelate(p, image.value, st.lastArea.value, st.lastStrength))
  {
  }

  class MosaicTool {
    var lastArea: Option<Area>
    var lastStrength: int

    function State(): MosaicState
      reads this
    {
      MosaicState(lastArea, lastStrength)
    }

    constructor()
      ensures State() == InitialState
    {
      lastArea := None;
      lastStrength := 10;
    }

    method Process(p: Pillow, image: Option<Image>, area: Option<Area>, strength: Option<int>) returns (r: Option<Image>)
      modifies this
      ensures (State(), r) == ProcessOutcome(old(State()), p, image, area, strength)
    {
      if image.None? || area.None? {
        return image;
      }
      var s: int;
      if strength.None? {
        s := lastStrength;
      } else {
        s := strength.value;
        lastStrength := s;
      }
      lastArea := area;
      r := Some(Pixelate(p, image.value, area.value, s));
    }

    method ApplyLastSettings(p: Pillow, image: Option<Image>) returns (r: Option<Image>)
      modifies this
      ensures (State(), r) == ApplyLastOutcome(old(State()), p, image)
    {
      if lastArea.Some? && image.Some? {
        r := Process(p, image, lastArea, Some(lastStrength));
      } else {
        r := image;
      }
    }
  }
}
