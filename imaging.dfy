/**
 * The Pillow operations the editor calls but whose pixel arithmetic is not
 * part of this model (nearest-neighbour resampling, rotation, transposition,
 * colour conversion, file codecs). They are passed in as function values;
 * `Pillow.Valid()` collects the shape facts the editor relies on.
 */
module Imaging {
  import opened Wrappers
  import opened Images
  import opened BmpFile

  /** `Image.format` of an opened file, and the formats `save` is asked for. */
  datatype Format = Png | Jpeg | Bmp | Gif | OtherFormat(name: string)

  /** Size of the 24-bit BMP file Pillow writes: two headers, then rows padded to 4 bytes. */
  function BmpFileSize(im: Image): int {
    54 + im.height * (((3 * im.width + 3) / 4) * 4)
  }

  datatype Pillow = Pillow(
    /** `im.resize((w, h), Image.NEAREST)` */
    resize: (Image, int, int) -> Image,
    /** `im.rotate(angle, expand=True)` */
    rotate: (Image, int) -> Image,
    /** `im.transpose(Image.FLIP_LEFT_RIGHT)` */
    flipLeftRight: Image -> Image,
    /** `im.transpose(Image.FLIP_TOP_BOTTOM)` */
    flipTopBottom: Image -> Image,
    /** `im.convert(mode)` */
    convert: (Image, Mode) -> Image,
    /** `im.save(path, format)` followed by `Image.open(path)`: the image read back, or None when Pillow refuses to write this mode in this format */
    saveAndReopen: (Format, Image) -> Option<Image>,
    /** `im.save(buffer, 'BMP')`: the bytes of a BMP file */
    encodeBmp: Image -> seq<Byte>,
    /** `Image.open(BytesIO(bytes))` on BMP bytes, None when it raises */
    decodeBmp: seq<Byte> -> Option<Image>)
  {
    /** Resizing gives the requested size in the same mode; resizing to the current size returns a copy. */
    ghost predicate ResizeContract() {
      && (forall im: Image, w: int, h: int | w > 0 && h > 0 ::
            resize(im, w, h).mode == im.mode && resize(im, w, h).width == w && resize(im, w, h).height == h)
      && (forall im: Image :: resize(im, im.width, im.height) == im)
    }

    /** A quarter turn with `expand=True` swaps width and height. */
    ghost predicate RotateContract() {
      forall im: Image, angle: int | angle == 90 || angle == -90 ::
        rotate(im, angle).mode == im.mode && rotate(im, angle).width == im.height && rotate(im, angle).height == im.width
    }

    /** Flips keep mode and size. */
    ghost predicate FlipContract() {
      && (forall im: Image :: SameShape(flipLeftRight(im), im))
      && (forall im: Image :: SameShape(flipTopBottom(im), im))
    }

    /** Conversion sets the mode and keeps the size; converting to the current mode returns a copy. */
    ghost predicate ConvertContract() {
      && (forall im: Image, m: Mode ::
            convert(im, m).mode == m && convert(im, m).width == im.width && convert(im, m).height == im.height)
      && (forall im: Image :: convert(im, im.mode) == im)
    }

    /**
     * Saving keeps the size; PNG is lossless for RGB and RGBA; JPEG accepts
     * RGB and reads back as RGB.
     */
    ghost predicate SaveContract() {
      && (forall f: Format, im: Image | saveAndReopen(f, im).Some? ::
            saveAndReopen(f, im).value.width == im.width && saveAndReopen(f, im).value.height == im.height)
      && (forall im: Image | im.mode == RGB || im.mode == RGBA :: saveAndReopen(Png, im) == Some(im))
      && (forall im: Image | im.mode == RGB ::
            saveAndReopen(Jpeg, im).Some? && saveAndReopen(Jpeg, im).value.mode == RGB)
    }

    /**
     * An RGB image small enough for the 4-byte size field is written as a
     * 24-bit BMP file: the standard 14-byte file header, then a 40-byte
     * BITMAPINFOHEADER whose bit count is 24 and whose compression is 0
     * (BI_RGB), then the padded rows. It reads back with the same size and
     * the same colour channels.
     */
    ghost predicate BmpContract() {
      forall im: Image | im.mode == RGB && BmpFileSize(im) < Limit ::
        && StandardBmp(encodeBmp(im))
        && |encodeBmp(im)| == BmpFileSize(im)
        && encodeBmp(im)[14..18] == Le4(40)
        && encodeBmp(im)[28..32] == [24, 0, 0, 0]  // bit count 24, low half of compression 0
        && encodeBmp(im)[32..34] == [0, 0]        // high half of compression 0
        && decodeBmp(encodeBmp(im)).Some?
        && SameColours(decodeBmp(encodeBmp(im)).value, im)
    }

    /**
     * The BMP reader refuses a file whose info-header size field (bytes 14
     * to 17) is not one of the header sizes it knows.
     */
    ghost predicate BmpHeaderCheck() {
      forall b: seq<Byte> | |b| >= 18 && !KnownInfoHeaderSize(LeValue(b[14..18])) :: decodeBmp(b).None?
    }

    ghost predicate Valid() {
      && ResizeContract()
      && RotateContract()
      && FlipContract()
      && ConvertContract()
      && SaveContract()
      && BmpContract()
      && BmpHeaderCheck()
    }
  }
}
