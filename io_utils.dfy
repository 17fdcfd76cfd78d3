/**
 * The decisions of the image input/output helper: which format a save
 * uses, how a loaded image is normalised, how clipboard DIB data is turned
 * into a BMP file and back, and when copying to the clipboard is attempted.
 * The disk and the clipboard are values passed in and handed back.
 */
module IoUtils {
  import opened Wrappers
  import opened Images
  import opened BmpFile
  import opened Imaging
  import opened Paths

  /** What opening a path finds: a picture in some format, or something Pillow cannot identify or open. */
  datatype Entry = Picture(format: Format, decoded: Image) | Unreadable

  /** The files on disk, and the paths where writing raises (missing directory, no permission). */
  datatype Disk = Disk(files: map<string, Entry>, unwritable: set<string>)

  /** `sys.platform`: 'win32', 'darwin', a 'linux' prefix, or anything else. */
  datatype Platform = Windows | MacOS | Linux | OtherPlatform

  /**
   * The system clipboard as the editor sees it: whether `win32clipboard`
   * imports, whether the copy helper (`osascript` or `xclip`) runs, whether
   * another process holds the clipboard open (so that `OpenClipboard`
   * raises), and the CF_DIB data on it, if any.
   */
  datatype Clipboard = Clipboard(win32Installed: bool, helperInstalled: bool, locked: bool, dib: Option<seq<Byte>>)

  /** The `format_map` table; anything it lacks saves as PNG. */
  function FormatOfExtension(ext: string): Format {
    if ext == ".png" then Png
    else if ext == ".jpg" || ext == ".jpeg" then Jpeg
    else if ext == ".bmp" then Bmp
    else if ext == ".gif" then Gif
    else Png
  }

  /** The format `save_to_file` chooses from the lower-cased extension of the path. */
  function SaveFormat(path: string): Format {
    FormatOfExtension(Lower(Extension(path)))
  }

  /**
   * The whole table, for every path: JPEG exactly for a lower-cased
   * extension `.jpg` or `.jpeg`, BMP exactly for `.bmp`, GIF exactly for
   * `.gif`, and PNG for `.png` and for every other extension, none included.
   */
  lemma SaveFormatMeaning(path: string)
    ensures var e := Lower(Extension(path));
      && (SaveFormat(path) == Jpeg <==> e == ".jpg" || e == ".jpeg")
      && (SaveFormat(path) == Bmp <==> e == ".bmp")
      && (SaveFormat(path) == Gif <==> e == ".gif")
      && (SaveFormat(path) == Png <==> !(e == ".jpg" || e == ".jpeg" || e == ".bmp" || e == ".gif"))
      && !SaveFormat(path).OtherFormat?
  {
  }

  /** The save format of `stem.ext` is the table entry of `.ext` lower-cased, whatever the case of `ext`. */
  lemma {:induction false} SaveFormatOfName(stem: string, ext: string)
    requires stem != [] && stem[|stem| - 1] != '.' && stem[|stem| - 1] != '/'
    requires '.' !in ext && '/' !in ext
    ensures SaveFormat(stem + "." + ext) == FormatOfExtension("." + Lower(ext))
  {
    ExtensionOfName(stem, ext);
    LowerOfDotted(ext);
  }

  lemma LowerOfDotted(ext: string)
    ensures Lower("." + ext) == "." + Lower(ext)
  {
    var a, b := Lower("." + ext), "." + Lower(ext);
    assert |a| == |b|;
    forall k | 0 <= k < |a|
      ensures a[k] == b[k]
    {
      if k > 0 {
        assert ("." + ext)[k] == ext[k - 1];
      }
    }
  }

  /** A path without an extension (no dot in its last segment, or only leading dots) saves as PNG. */
  lemma SaveFormatWithoutExtension(path: string)
    requires Extension(path) == []
    ensures SaveFormat(path) == Png
  {
    assert Lower(Extension(path)) == [];
  }

  /** The image actually written: only an RGBA image bound for JPEG is converted to RGB first. */
  function PrepareForSave(p: Pillow, f: Format, im: Image): Image {
    if f == Jpeg && im.mode == RGBA then p.convert(im, RGB) else im
  }

  /**
   * The conversion happens exactly for RGBA into JPEG, keeps the size, and
   * leaves every other format and mode as it was.
   */
  lemma PrepareForSaveMeaning(p: Pillow, f: Format, im: Image)
    requires p.Valid()
    ensures var out := PrepareForSave(p, f, im);
      && out.width == im.width && out.height == im.height
      && (f == Jpeg && im.mode == RGBA ==> out.mode == RGB)
      && (f != Jpeg || im.mode != RGBA ==> out == im)
  {
  }

  /** The mode `load_from_file` normalises to: RGBA for PNG and GIF, RGB for every other format. */
  function TargetMode(f: Format): Mode {
    if f == Png || f == Gif then RGBA else RGB
  }

  /** The image `load_from_file` returns for a picture it opened. */
  function Normalise(p: Pillow, f: Format, im: Image): Image {
    if im.mode != TargetMode(f) then p.convert(im, TargetMode(f)) else im
  }

  /** Immutable after construction: whether `pyperclip` and `cv2` imported. */
  datatype ImageIO = ImageIO(clipboardAvailable: bool, cv2Available: bool) {

    /** `load_from_file(path)`: None for a missing path or a file Pillow cannot open. */
    function LoadFromFile(p: Pillow, disk: Disk, path: string): Option<Image> {
      if path !in disk.files then None
      else
        match disk.files[path]
        case Unreadable => None
        case Picture(f, im) => Some(Normalise(p, f, im))
    }

    /**
     * `load_from_clipboard()`: needs `cv2`, `win32clipboard`, a clipboard
     * `OpenClipboard` can open, and DIB data on it; the BMP file is
     * assembled with the corrected header (see `BmpFile.DibToBmp`). The Tk
     * fallback never yields an image.
     */
    function LoadFromClipboard(p: Pillow, cb: Clipboard): Option<Image> {
      if !cv2Available || !cb.win32Installed || cb.locked || cb.dib.None? then None
      else
        match DibToBmp(cb.dib.value)
        case None => None
        case Some(bmp) => p.decodeBmp(bmp)
    }

    /**
     * `load_from_clipboard()` with the BMP file assembled as the code
     * writes it (`BmpFile.ClipboardBmpAsWritten`).
     */
    function LoadFromClipboardAsWritten(p: Pillow, cb: Clipboard): Option<Image> {
      if !cv2Available || !cb.win32Installed || cb.locked || cb.dib.None? then None
      else
        match ClipboardBmpAsWritten(cb.dib.value)
        case None => None
        case Some(bmp) => p.decodeBmp(bmp)
    }

    /**
     * `save_to_file(image, path)`: whether it succeeded, and the disk
     * afterwards. Pillow opens the target for writing before it encodes;
     * when encoding raises, it removes the file only if it created it, so
     * an existing file is left truncated.
     */
    function SaveToFile(p: Pillow, disk: Disk, im: Image, path: string): (bool, Disk) {
      var f := SaveFormat(path);
      if path in disk.unwritable then (false, disk)
      else
        match p.saveAndReopen(f, PrepareForSave(p, f, im))
        case None => (false, if path in disk.files then disk.(files := disk.files[path := Unreadable]) else disk)
        case Some(back) => (true, disk.(files := disk.files[path := Picture(f, back)]))
    }

    /**
     * `copy_to_clipboard(image)`: on Windows the image goes to the
     * clipboard as CF_DIB, a 24-bit BMP file without its 14-byte header,
     * unless the BMP encoder refuses a file of 2^32 bytes or more or
     * `OpenClipboard` raises, both caught as a failure; on
     * macOS and Linux it is written as a temporary PNG handed to the copy
     * helper (the clipboard content it sets is not modelled).
     */
    function CopyToClipboard(p: Pillow, platform: Platform, cb: Clipboard, im: Image): (bool, Clipboard) {
      if !clipboardAvailable then (false, cb)
      else
        match platform
        case Windows =>
          if cb.win32Installed && BmpFileSize(p.convert(im, RGB)) < Limit && !cb.locked then
            (true, cb.(dib := Some(BmpToDib(p.encodeBmp(p.convert(im, RGB))))))
          else (false, cb)
        case MacOS | Linux =>
          (p.saveAndReopen(Png, im).Some? && cb.helperInstalled, cb)
        case OtherPlatform => (false, cb)
    }
  }

  /**
   * A missing path and an unreadable file give None; a picture comes back
   * at its decoded size in the mode its format is normalised to, and one
   * already in that mode comes back unchanged.
   */
  lemma LoadFromFileMeaning(io: ImageIO, p: Pillow, disk: Disk, path: string)
    requires p.Valid()
    ensures var r := io.LoadFromFile(p, disk, path);
      && (r.Some? <==> path in disk.files && disk.files[path].Picture?)
      && (r.Some? ==>
            var e := disk.files[path];
            && r.value.mode == TargetMode(e.format)
            && r.value.width == e.decoded.width && r.value.height == e.decoded.height
            && (e.decoded.mode == TargetMode(e.format) ==> r.value == e.decoded))
  {
  }

  /**
   * A save touches no path but its target. An unwritable target fails and
   * leaves the disk as it was. A successful save leaves a picture in the
   * path's format there. A save that fails while encoding leaves a new
   * target absent and an existing one truncated (unreadable).
   */
  lemma SaveToFileMeaning(io: ImageIO, p: Pillow, disk: Disk, im: Image, path: string)
    ensures var (ok, disk') := io.SaveToFile(p, disk, im, path);
      && disk'.unwritable == disk.unwritable
      && (forall q :: q != path ==> (q in disk'.files <==> q in disk.files))
      && (forall q :: q != path && q in disk.files ==> disk'.files[q] == disk.files[q])
      && (path in disk.unwritable ==> !ok && disk' == disk)
      && (ok ==> path in disk'.files && disk'.files[path].Picture? && disk'.files[path].format == SaveFormat(path))
      && (!ok && path !in disk.files ==> disk' == disk)
      && (!ok && path in disk.files && path !in disk.unwritable ==> path in disk'.files && disk'.files[path] == Unreadable)
  {
    var f := SaveFormat(path);
    if path !in disk.unwritable {
      match p.saveAndReopen(f, PrepareForSave(p, f, im))
      case None =>
      case Some(back) =>
    }
  }

  /**
   * An RGBA image saved to a path that saves as PNG (`x.png`, `x.PNG`, a
   * name without extension) and loaded back is the same image.
   */
  lemma {:induction false} PngSaveLoadRoundTrip(io: ImageIO, p: Pillow, disk: Disk, im: Image, path: string)
    requires p.SaveContract() && im.mode == RGBA
    requires SaveFormat(path) == Png && path !in disk.unwritable
    ensures var (ok, disk') := io.SaveToFile(p, disk, im, path);
      ok && io.LoadFromFile(p, disk', path) == Some(im)
  {
    assert PrepareForSave(p, Png, im) == im;
    assert p.saveAndReopen(Png, im) == Some(im);
    var disk' := SaveWrites(io, p, disk, im, path, im);
    assert Normalise(p, Png, im) == im;
  }

  /** An RGB or RGBA image saved to a path that saves as JPEG loads back as an RGB image of the same size. */
  lemma {:induction false} JpegSaveLoad(io: ImageIO, p: Pillow, disk: Disk, im: Image, path: string)
    requires p.ConvertContract() && p.SaveContract() && (im.mode == RGB || im.mode == RGBA)
    requires SaveFormat(path) == Jpeg && path !in disk.unwritable
    ensures var (ok, disk') := io.SaveToFile(p, disk, im, path);
      && ok
      && var r := io.LoadFromFile(p, disk', path);
      && r.Some? && r.value.mode == RGB && r.value.width == im.width && r.value.height == im.height
  {
    var back := JpegWrite(p, im);
    var disk' := SaveWrites(io, p, disk, im, path, back);
    assert io.LoadFromFile(p, disk', path) == Some(back);
  }

  /** A save Pillow accepts at a writable path stores what it reads back under that path, in the path's format. */
  lemma SaveWrites(io: ImageIO, p: Pillow, disk: Disk, im: Image, path: string, back: Image) returns (disk': Disk)
    requires path !in disk.unwritable
    requires p.saveAndReopen(SaveFormat(path), PrepareForSave(p, SaveFormat(path), im)) == Some(back)
    ensures disk' == disk.(files := disk.files[path := Picture(SaveFormat(path), back)])
    ensures io.SaveToFile(p, disk, im, path) == (true, disk')
  {
    disk' := disk.(files := disk.files[path := Picture(SaveFormat(path), back)]);
  }

  /** What writing an RGB or RGBA image as JPEG reads back as: an RGB image of the same size. */
  lemma JpegWrite(p: Pillow, im: Image) returns (back: Image)
    requires p.ConvertContract() && p.SaveContract() && (im.mode == RGB || im.mode == RGBA)
    ensures p.saveAndReopen(Jpeg, PrepareForSave(p, Jpeg, im)) == Some(back)
    ensures back.mode == RGB && back.width == im.width && back.height == im.height
  {
    var out := PrepareForSave(p, Jpeg, im);
    assert out.mode == RGB && out.width == im.width && out.height == im.height;
    back := p.saveAndReopen(Jpeg, out).value;
  }

  /** Saving an RGBA image as `name.png` and opening `name.png` again gives the image back. */
  lemma {:induction false} PngFileRoundTrip(io: ImageIO, p: Pillow, disk: Disk, im: Image, stem: string)
    requires p.SaveContract() && im.mode == RGBA
    requires stem != [] && stem[|stem| - 1] != '.' && stem[|stem| - 1] != '/'
    requires stem + "." + "png" !in disk.unwritable
    ensures var (ok, disk') := io.SaveToFile(p, disk, im, stem + "." + "png");
      ok && io.LoadFromFile(p, disk', stem + "." + "png") == Some(im)
  {
    PngNameSavesAsPng(stem);
    PngSaveLoadRoundTrip(io, p, disk, im, stem + "." + "png");
  }

  /** A name ending in `.png` saves as PNG. */
  lemma PngNameSavesAsPng(stem: string)
    requires stem != [] && stem[|stem| - 1] != '.' && stem[|stem| - 1] != '/'
    ensures SaveFormat(stem + "." + "png") == Png
  {
    LowerWithoutCapitals("png");
    var e := "." + Lower("png");
    assert e == ".png";
    assert FormatOfExtension(e) == Png;
    SaveFormatOfName(stem, "png");
  }

  /** Without clipboard support nothing is attempted: the copy fails and the clipboard is untouched. */
  lemma CopyUnavailable(io: ImageIO, p: Pillow, platform: Platform, cb: Clipboard, im: Image)
    requires !io.clipboardAvailable
    ensures io.CopyToClipboard(p, platform, cb, im) == (false, cb)
  {
  }

  /**
   * Copying succeeds on Windows exactly when `win32clipboard` imports, the
   * image's BMP file fits the 4-byte size field and the clipboard is not
   * held by another process; a failed copy leaves the clipboard as it was.
   * It never succeeds on an unknown platform.
   */
  lemma CopySucceeds(io: ImageIO, p: Pillow, platform: Platform, cb: Clipboard, im: Image)
    ensures platform == Windows ==>
              (io.CopyToClipboard(p, platform, cb, im).0 <==>
                 io.clipboardAvailable && cb.win32Installed && !cb.locked && BmpFileSize(p.convert(im, RGB)) < Limit)
    ensures !io.CopyToClipboard(p, platform, cb, im).0 ==> io.CopyToClipboard(p, platform, cb, im).1 == cb
    ensures platform == OtherPlatform ==> !io.CopyToClipboard(p, platform, cb, im).0
    ensures platform != Windows ==> io.CopyToClipboard(p, platform, cb, im).1 == cb
  {
  }

  /** A clipboard held by another process yields nothing: `OpenClipboard` raises and the Tk fallback finds no image. */
  lemma LockedClipboardLoadsNothing(io: ImageIO, p: Pillow, cb: Clipboard)
    requires cb.locked
    ensures io.LoadFromClipboard(p, cb).None? && io.LoadFromClipboardAsWritten(p, cb).None?
  {
  }

  /**
   * On Windows, copying an image and pasting it back with the corrected
   * clipboard assembly gives an image of the same size with the colours of
   * the image converted to RGB.
   */
  lemma {:induction false} CopyPasteRoundTrip(io: ImageIO, p: Pillow, cb: Clipboard, im: Image)
    requires p.ConvertContract() && p.BmpContract()
    requires io.clipboardAvailable && io.cv2Available && cb.win32Installed && !cb.locked
    requires BmpFileSize(p.convert(im, RGB)) < Limit
    ensures var (ok, cb') := io.CopyToClipboard(p, Windows, cb, im);
      && ok
      && var back := io.LoadFromClipboard(p, cb');
      && back.Some? && SameColours(back.value, p.convert(im, RGB))
  {
    var rgb := p.convert(im, RGB);
    var bmp := p.encodeBmp(rgb);
    var cb' := cb.(dib := Some(BmpToDib(bmp)));
    assert io.CopyToClipboard(p, Windows, cb, im) == (true, cb');
    BmpReadsBack(p, rgb);
    DibRoundTrip(bmp);
    assert io.LoadFromClipboard(p, cb') == p.decodeBmp(bmp);
  }

  /**
   * With the clipboard assembly as written, pasting what a Windows copy put
   * on the clipboard never yields an image: the file handed to the BMP
   * reader has an info-header size of 24.
   */
  lemma {:induction false} CopyPasteAsWrittenFails(io: ImageIO, p: Pillow, cb: Clipboard, im: Image)
    requires p.BmpContract() && p.BmpHeaderCheck() && p.ConvertContract()
    requires io.clipboardAvailable && cb.win32Installed && !cb.locked
    requires BmpFileSize(p.convert(im, RGB)) < Limit
    ensures var (ok, cb') := io.CopyToClipboard(p, Windows, cb, im);
      ok && io.LoadFromClipboardAsWritten(p, cb').None?
  {
    var rgb := p.convert(im, RGB);
    var bmp := p.encodeBmp(rgb);
    var cb' := cb.(dib := Some(BmpToDib(bmp)));
    assert io.CopyToClipboard(p, Windows, cb, im) == (true, cb');
    EncodedLayout(p, rgb);
    AsWrittenRefused(p, bmp);
  }

  /** What the BMP encoder writes for an RGB image: a file at least 54 bytes long with bit count 24 at byte 28. */
  lemma EncodedLayout(p: Pillow, rgb: Image)
    requires p.BmpContract() && rgb.mode == RGB && BmpFileSize(rgb) < Limit
    ensures 32 <= |p.encodeBmp(rgb)| < Limit && p.encodeBmp(rgb)[28..32] == [24, 0, 0, 0]
  {
    var bmp := p.encodeBmp(rgb);
    assert |bmp| == BmpFileSize(rgb);
    HeaderFitsInFile(rgb);
  }

  /** Every image's BMP file holds at least the 54 bytes of its two headers. */
  lemma HeaderFitsInFile(im: Image)
    ensures BmpFileSize(im) >= 54
  {
    var row := ((3 * im.width + 3) / 4) * 4;
    assert row >= 0;
    assert im.height * row >= 0;
  }

  /** The BMP reader refuses the file the assembly as written makes of such a file's DIB. */
  lemma AsWrittenRefused(p: Pillow, bmp: seq<Byte>)
    requires p.BmpHeaderCheck()
    requires 32 <= |bmp| < Limit && bmp[28..32] == [24, 0, 0, 0]
    ensures ClipboardBmpAsWritten(BmpToDib(bmp)).Some?
    ensures p.decodeBmp(ClipboardBmpAsWritten(BmpToDib(bmp)).value).None?
  {
    AsWrittenMisreadsInfoHeader(bmp);
  }

  lemma BmpReadsBack(p: Pillow, rgb: Image)
    requires p.BmpContract() && rgb.mode == RGB && BmpFileSize(rgb) < Limit
    ensures StandardBmp(p.encodeBmp(rgb))
    ensures p.decodeBmp(p.encodeBmp(rgb)).Some? && SameColours(p.decodeBmp(p.encodeBmp(rgb)).value, rgb)
  {
  }
}
