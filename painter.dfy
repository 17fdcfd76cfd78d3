/**
 * The paint tool: parse a `#RRGGBB` or `#RRGGBBAA` colour code (opaque red
 * for anything else) and fill the selected rectangle, corners included, on
 * an RGBA copy of the image. The tool remembers its colour and last area.
 */
module Painter {
  import opened Wrappers
  import opened Images
  import opened Imaging

  /** The value stored as the colour: a string, or any non-string such as None. */
  datatype ColorValue = ColorString(text: string) | NotString

  const DefaultColor := ColorString("#FF0000")

  /** The fallback colour (255, 0, 0, 255). */
  const Red := Pixel(255, 0, 0, 255)

  function HexDigit(c: char): (v: Option<int>)
    ensures v.Some? ==> 0 <= v.value < 16
  {
    if '0' <= c <= '9' then Some(c as int - '0' as int)
    else if 'a' <= c <= 'f' then Some(c as int - 'a' as int + 10)
    else if 'A' <= c <= 'F' then Some(c as int - 'A' as int + 10)
    else None
  }

  /** `int(s, 16)` on a two-character string of hex digits. */
  function HexPair(hi: char, lo: char): Option<Byte> {
    match (HexDigit(hi), HexDigit(lo))
    case (Some(h), Some(l)) => Some(16 * h + l)
    case _ => None
  }

  /** The colour `process` fills with. */
  function ParseColor(c: ColorValue): Pixel {
    match c
    case NotString => Red
    case ColorString(s) =>
      if |s| == 7 && s[0] == '#' then
        match (HexPair(s[1], s[2]), HexPair(s[3], s[4]), HexPair(s[5], s[6]))
        case (Some(r), Some(g), Some(b)) => Pixel(r, g, b, 255)
        case _ => Red
      else if |s| == 9 && s[0] == '#' then
        match (HexPair(s[1], s[2]), HexPair(s[3], s[4]), HexPair(s[5], s[6]), HexPair(s[7], s[8]))
        case (Some(r), Some(g), Some(b), Some(a)) => Pixel(r, g, b, a)
        case _ => Red
      else Red
  }

  /** Colour codes the parser accepts: '#' and six or eight hex digits. */
  predicate WellFormedCode(s: string) {
    && (|s| == 7 || |s| == 9)
    && s[0] == '#'
    && forall k :: 1 <= k < |s| ==> HexDigit(s[k]).Some?
  }

  /** The value of the two hex digits at `s[k]` and `s[k + 1]`. */
  function ChannelAt(s: string, k: nat): int
    requires k + 1 < |s| && HexDigit(s[k]).Some? && HexDigit(s[k + 1]).Some?
  {
    16 * HexDigit(s[k]).value + HexDigit(s[k + 1]).value
  }

  /**
   * A well-formed code parses to its channels, with alpha 255 for the short
   * form; anything else (no '#', a wrong length, a non-hex digit, a
   * non-string) parses to opaque red.
   */
  lemma {:induction false} ParseColorMeaning(c: ColorValue)
    ensures c.NotString? ==> ParseColor(c) == Red
    ensures c.ColorString? && !WellFormedCode(c.text) ==> ParseColor(c) == Red
    ensures c.ColorString? && WellFormedCode(c.text) ==>
              var s := c.text;
              && ParseColor(c).r == ChannelAt(s, 1)
              && ParseColor(c).g == ChannelAt(s, 3)
              && ParseColor(c).b == ChannelAt(s, 5)
              && ParseColor(c).a == (if |s| == 7 then 255 else ChannelAt(s, 7))
  {
    if c.ColorString? && !WellFormedCode(c.text) {
      var s := c.text;
      if (|s| == 7 || |s| == 9) && s[0] == '#' {
        var k :| 1 <= k < |s| && HexDigit(s[k]).None?;
        if k <= 2 { assert HexPair(s[1], s[2]).None?; }
        else if k <= 4 { assert HexPair(s[3], s[4]).None?; }
        else if k <= 6 { assert HexPair(s[5], s[6]).None?; }
        else { assert HexPair(s[7], s[8]).None?; }
      }
    }
  }

  const HexDigits := "0123456789ABCDEF"

  /** Two upper-case hex digits for a byte. */
  function HexOf(v: Byte): string {
    [HexDigits[v / 16], HexDigits[v % 16]]
  }

  /** The `#RRGGBB` (or, with alpha, `#RRGGBBAA`) code of a colour, as a colour chooser produces it. */
  function ColorCode(p: Pixel, withAlpha: bool): string {
    "#" + HexOf(p.r) + HexOf(p.g) + HexOf(p.b) + (if withAlpha then HexOf(p.a) else "")
  }

  lemma HexOfRoundTrip(v: Byte)
    ensures HexPair(HexOf(v)[0], HexOf(v)[1]) == Some(v)
  {
    var h, l := v / 16, v % 16;
    assert HexDigit(HexDigits[h]) == Some(h);
    assert HexDigit(HexDigits[l]) == Some(l);
  }

  /** Parsing the code of a colour gives the colour back (made opaque for the six-digit form). */
  lemma {:induction false} ParseColorCode(p: Pixel, withAlpha: bool)
    ensures ParseColor(ColorString(ColorCode(p, withAlpha))) == if withAlpha then p else p.(a := 255)
  {
    var s := ColorCode(p, withAlpha);
    HexOfRoundTrip(p.r);
    HexOfRoundTrip(p.g);
    HexOfRoundTrip(p.b);
    HexOfRoundTrip(p.a);
    assert s[1..3] == HexOf(p.r) && s[3..5] == HexOf(p.g) && s[5..7] == HexOf(p.b);
    assert s[1] == HexOf(p.r)[0] && s[2] == HexOf(p.r)[1];
    assert s[3] == HexOf(p.g)[0] && s[4] == HexOf(p.g)[1];
    assert s[5] == HexOf(p.b)[0] && s[6] == HexOf(p.b)[1];
    if withAlpha {
      assert s[7] == HexOf(p.a)[0] && s[8] == HexOf(p.a)[1];
    }
  }

  /** `ImageDraw.rectangle` covers both corners. */
  predicate InRect(area: Area, x: int, y: int) {
    area.x1 <= x <= area.x2 && area.y1 <= y <= area.y2
  }

  /** The RGBA copy `process` draws on: a conversion unless the image is RGBA already. */
  function Canvas(p: Pillow, im: Image): Image {
    if im.mode != RGBA then p.convert(im, RGBA) else im
  }

  /**
   * The image `process` returns once its guard has passed. `rectangle`
   * raises ValueError for an inverted box, and the input comes back.
   */
  function Fill(p: Pillow, im: Image, area: Area, color: ColorValue): Image {
    if area.x2 < area.x1 || area.y2 < area.y1 then im
    else
      var canvas := Canvas(p, im);
      var fill := ParseColor(color);
      Build(canvas.mode, canvas.width, canvas.height,
            (x, y) => if InRect(area, x, y) then fill else PixelOr(canvas, x, y))
  }

  /**
   * For a proper rectangle the result is an RGBA image of the input's size
   * whose pixels are the parsed colour inside the rectangle and the input's
   * (converted to RGBA) outside it.
   */
  lemma {:induction false} FillMeaning(p: Pillow, im: Image, area: Area, color: ColorValue)
    requires p.Valid()
    requires area.x1 <= area.x2 && area.y1 <= area.y2
    ensures var r := Fill(p, im, area, color);
      && r.mode == RGBA && r.width == im.width && r.height == im.height
      && (forall x, y :: Inside(r, x, y) && InRect(area, x, y) ==> At(r, x, y) == ParseColor(color))
      && (forall x, y :: Inside(r, x, y) && !InRect(area, x, y) ==> At(r, x, y) == At(Canvas(p, im), x, y))
      && (im.mode == RGBA ==> forall x, y :: Inside(r, x, y) && !InRect(area, x, y) ==> At(r, x, y) == At(im, x, y))
  {
    var canvas := Canvas(p, im);
    assert canvas.mode == RGBA && canvas.width == im.width && canvas.height == im.height;
  }

  /** What the tool remembers: `color` and `last_area`. */
  datatype PaintState = PaintState(color: ColorValue, lastArea: Option<Area>)

  const InitialState := PaintState(DefaultColor, None)

  /** The tool's state and the returned image after `process(image, area, color)`. */
  function ProcessOutcome(st: PaintState, p: Pillow, image: Option<Image>, area: Option<Area>, color: Option<ColorValue>)
    : (PaintState, Option<Image>)
  {
    if image.None? || area.None? then (st, image)
    else
      var c := if color.Some? then color.value else st.color;
      (st.(lastArea := area), Some(Fill(p, image.value, area.value, c)))
  }

  /** The tool's state and the returned image after `apply_last_settings(image)`. */
  function ApplyLastOutcome(st: PaintState, p: Pillow, image: Option<Image>): (PaintState, Option<Image>) {
    if st.lastArea.Some? && image.Some? then ProcessOutcome(st, p, image, st.lastArea, Some(st.color))
    else (st, image)
  }

  /**
   * `process` with no image or no area returns its input and remembers
   * nothing; otherwise it remembers the area, never changes the colour, and
   * fills with the given colour or, if none, the stored one.
   */
  lemma ProcessRemembers(st: PaintState, p: Pillow, image: Option<Image>, area: Option<Area>, color: Option<ColorValue>)
    ensures var (st', r) := ProcessOutcome(st, p, image, area, color);
      && st'.color == st.color
      && (image.None? || area.None? ==> st' == st && r == image)
      && (image.Some? && area.Some? ==>
            st'.lastArea == area && r == Some(Fill(p, image.value, area.value, color.GetOr(st.color))))
  {
  }

  /**
   * Re-applying the last settings fills the remembered area with the stored
   * colour and leaves the tool's state as it was; with no remembered area
   * or no image it returns the image.
   */
  lemma ApplyLastKeepsState(st: PaintState, p: Pillow, image: Option<Image>)
    ensures ApplyLastOutcome(st, p, image).0 == st
    ensures st.lastArea.None? || image.None? ==> ApplyLastOutcome(st, p, image).1 == image
    ensures st.lastArea.Some? && image.Some? ==>
              ApplyLastOutcome(st, p, image).1 == Some(Fill(p, image.value, st.lastArea.value, st.color))
  {
  }

  class PaintTool {
    var color: ColorValue
    var lastArea: Option<Area>

    function State(): PaintState
      reads this
    {
      PaintState(color, lastArea)
    }

    constructor()
      ensures State() == InitialState
    {
      color := DefaultColor;
      lastArea := None;
    }

    method SetColor(c: ColorValue)
      modifies this
      ensures State() == old(State()).(color := c)
    {
      color := c;
    }

    method GetColor() returns (c: ColorValue)
      ensures c == State().color
    {
      c := color;
    }

    method Process(p: Pillow, image: Option<Image>, area: Option<Area>, c: Option<ColorValue>) returns (r: Option<Image>)
      modifies this
      ensures (State(), r) == ProcessOutcome(old(State()), p, image, area, c)
    {
      if image.None? || area.None? {
        return image;
      }
      var fill := if c.None? then color else c.value;
      lastArea := area;
      r := Some(Fill(p, image.value, area.value, fill));
    }

    method ApplyLastSettings(p: Pillow, image: Option<Image>) returns (r: Option<Image>)
      modifies this
      ensures (State(), r) == ApplyLastOutcome(old(State()), p, image)
    {
      if lastArea.Some? && image.Some? {
        r := Process(p, image, lastArea, Some(color));
      } else {
        r := image;
      }
    }
  }
}
