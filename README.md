# QuickSnap editing session, modelled in Dafny

QuickSnap is a small desktop image editor. You load an image from a file, the clipboard or a drag-and-drop. You then apply one of three region tools — mosaic (pixelate), paint (fill a rectangle) or trim (crop) — or remove the background, rotate or flip it. Finally you save the result or copy it back to the clipboard.

This project models the editor's controller (`QuickImageEditor` in `main.py`), the three region tools and the decision logic of the image I/O helper, and proves what they promise.

Modules, in dependency order:

- `Wrappers` — `Option`.
- `Images` — images as values: a mode (RGB, RGBA, other), a positive size and a grid of 8-bit RGBA pixels.
  - Pillow's `crop` is written out: the box is filled with blank pixels where it leaves the image.
  - So is `paste`, which clips the patch.
- `BmpFile` — the 14-byte BMP file header. It covers:
  - the DIB (device-independent bitmap) data that the Windows clipboard holds as CF_DIB, which is a BMP file without that header;
  - the assembly of a BMP file from CF_DIB data as written, and as evidently intended (see Findings).
- `Imaging` — the Pillow operations whose pixel arithmetic is not modelled: resize, rotate, transpose, convert, save-and-reopen, and BMP encode and decode.
  - They are function values in a `Pillow` record.
  - Its `...Contract` predicates state the size and mode facts the editor relies on.
- `Paths` — POSIX `os.path.dirname` and `os.path.splitext`, and ASCII lower-casing.
- `IoUtils` — `ImageIO`:
  - which format a save uses, and the JPEG conversion;
  - how a loaded image is normalised to RGB or RGBA;
  - when a clipboard load or copy is attempted and what it produces;
  - the disk and the clipboard are values passed in and returned.
- `Mosaic`, `Painter`, `Trimmer` — each tool has two parts:
  - a specification: the transform, the tool's remembered state, and the outcome of `process` and `apply_last_settings` as functions;
  - a class with the tool's fields, whose methods are proved equal to that specification.
- `Session` — the controller as a pure state machine:
  - `Step` is what one GUI event does to the editor's fields, the tools' state and the world (disk and clipboard);
  - `Run` is the GUI loop, which stops at the first quit event.
  - The answers the GUI gives while an event is handled travel inside the event: the dialog's path, the slider position, the entry of the values dictionary.
- `SessionProperties` — lemmas about `Step` and `Run`.
- `Editor` — the class `QuickImageEditor`. Its fields change in place. Each method is proved to leave the fields, the tools and the world exactly as `Session` says. `HandleEvents` is `_handle_events`, and `Run` drives it over a sequence of events.

The settings the session starts with are a parameter of the editor's constructor. `Session.DefaultSettings` records the defaults of `main.py:276-280`.

Two behaviours of the code are worth stating plainly:

- Trim clamps the left and top edges to `width - 1` and `height - 1` (`tools/trimmer.py:40-41`), and the right and bottom edges to the width and height.
- A strength event is guarded by `mode == mosaic` and a selection start (`main.py:115`). Without a remembered mosaic area it is a no-op.

## Model

| member | source | states |
|---|---|---|
| Images.Crop | tools/trimmer.py:51 | The crop has the box's size and the image's mode. Pixel (i, j) is the source pixel (x1 + i, y1 + j), or blank where the box leaves the image. |
| Images.Paste | tools/mosaic.py:60 | Pasting keeps the base's mode and size. Inside the patch's footprint the pixels are the patch's; everywhere else they are the base's (the patch is clipped). |
| Images.PasteCropIdentity | tools/mosaic.py:44-60 | Cropping a box and pasting it back at its own corner gives the image back unchanged. |
| Images.CropInside | tools/trimmer.py:51 | A box lying inside the image crops to a window of it: every pixel of the result is the image's pixel, none is filled in. |
| BmpFile.Le4RoundTrip | tools/io_utils.py:94 | Decoding the 4 little-endian bytes of `n.to_bytes(4, 'little')` gives n back, for every n below 2^32. |
| BmpFile.HeaderFields | tools/io_utils.py:94 | The header is 14 bytes long, starts with "BM", decodes to the size it was built from, has four zero reserved bytes and a pixel offset of 54. |
| BmpFile.ClipboardBmpAsWritten | tools/io_utils.py:94-95 | The file is produced exactly when the length fits in 4 bytes. It is a header sized by the DIB's own length followed by the DIB minus its first 14 bytes, so it is no longer than the DIB. |
| BmpFile.BmpToDib | tools/io_utils.py:192-193 | Cutting the first 14 bytes off a BMP file leaves the rest: header plus DIB is the file. |
| BmpFile.AsWrittenBreaksRoundTrip | tools/io_utils.py:94-95 | For every standard BMP file, assembling its own DIB as written does not give the file back. |
| BmpFile.DibToBmp | tools/io_utils.py:94-95 | The corrected assembly succeeds exactly when header plus DIB fits the size field. The result is 14 bytes longer than the DIB and ends with the whole DIB. |
| BmpFile.DibRoundTrip | tools/io_utils.py:94-95 | With the corrected assembly, cutting a standard BMP file's header off and reassembling gives the same file. |
| Paths.DirnameOfJoin | main.py:143 | The directory of `dir + "/" + name`, for a name without '/', is `dir`. |
| Paths.DirnameOfName | main.py:265 | A bare file name has the empty directory. |
| Paths.Extension | tools/io_utils.py:152 | The extension is empty or a suffix of the path that starts with its only '.' and contains no '/'. |
| Paths.ExtensionOfName | tools/io_utils.py:152 | `stem.ext` has the extension `.ext`. |
| Paths.ExtensionWithoutDot | tools/io_utils.py:152 | A path without a '.' has no extension. |
| Paths.Lower | tools/io_utils.py:152 | Lower-casing keeps the length and lower-cases each character in place. |
| IoUtils.SaveFormatOfName | tools/io_utils.py:152-153 | The save format of `stem.ext` is the table entry for `.ext` lower-cased, whatever the case of `ext`. |
| IoUtils.SaveFormatMeaning | tools/io_utils.py:144-153 | For every path: JPEG exactly when its lower-cased extension is `.jpg` or `.jpeg`; BMP exactly for `.bmp`; GIF exactly for `.gif`; PNG exactly for every other extension, the empty one included; never any other format. |
| IoUtils.SaveFormatWithoutExtension | tools/io_utils.py:152-153 | Every path without an extension saves as PNG, dotfiles such as `.png` included. |
| Paths.ExtensionOfDotfile | tools/io_utils.py:152 | A file name whose only '.' is its first character has no extension, as `os.path.splitext` treats leading dots. |
| IoUtils.PrepareForSaveMeaning | tools/io_utils.py:156-158 | Only an RGBA image bound for JPEG is converted, to RGB. Every other combination is written as it is, and the size never changes. |
| IoUtils.LoadFromFileMeaning | tools/io_utils.py:53-74 | Loading succeeds exactly for an existing, readable picture. The result has the picture's size, is RGBA for PNG and GIF and RGB otherwise, and is the picture itself when it already has that mode. |
| IoUtils.SaveToFileMeaning | tools/io_utils.py:142-167 | An unwritable path fails and leaves the disk as it was. A failed save of a new file leaves the disk as it was; a failed save over an existing file leaves it truncated (unreadable), because Pillow opens the target for writing before encoding. A successful save writes exactly the target path, in the format its extension selects. No other path changes. |
| IoUtils.PngSaveLoadRoundTrip | tools/io_utils.py:142-167 | An RGBA image saved to any path that saves as PNG and loaded back is the same image. |
| IoUtils.JpegSaveLoad | tools/io_utils.py:153-161 | An RGB or RGBA image saved to a path that saves as JPEG succeeds, and loads back as an RGB image of the same size. |
| IoUtils.PngFileRoundTrip | tools/io_utils.py:144-161 | Saving an RGBA image as `name.png` and loading `name.png` gives the image back. |
| IoUtils.CopyUnavailable | tools/io_utils.py:179-181 | Without the clipboard library a copy fails and the clipboard is untouched. |
| IoUtils.CopySucceeds | tools/io_utils.py:183-257 | On Windows a copy succeeds exactly when both clipboard libraries import, the image's BMP file is under 2^32 bytes and no other process holds the clipboard. A failed copy leaves the clipboard as it was. On an unknown platform a copy always fails. Off Windows the CF_DIB content is not changed. |
| IoUtils.LockedClipboardLoadsNothing | tools/io_utils.py:83-104 | A clipboard held by another process yields no image, with either clipboard assembly: `OpenClipboard` raises and the fallback finds nothing. |
| IoUtils.CopyPasteRoundTrip | tools/io_utils.py:185-202 | With the corrected clipboard assembly, on Windows with a clipboard no other process holds and an image whose BMP file is under 2^32 bytes, copying an image and loading from the clipboard gives an image of the same size with the colours of the image converted to RGB. As written the load gives nothing (see IoUtils.CopyPasteAsWrittenFails). |
| IoUtils.CopyPasteAsWrittenFails | tools/io_utils.py:84-105 | With the clipboard assembly as written, on Windows with a clipboard no other process holds and an image whose BMP file is under 2^32 bytes, copying an image succeeds but loading it back from the clipboard gives nothing. |
| BmpFile.AsWrittenMisreadsInfoHeader | tools/io_utils.py:94-95 | For a BMP file whose info header says 24 bits per pixel, the file assembled as written from its DIB carries 24 where the info header size belongs, a size the BMP reader does not know. |
| Mosaic.ScaleFactor | tools/mosaic.py:52 | The scale factor is at least 1 for every non-zero strength, negative ones included (Python's `int` truncates towards zero). |
| Mosaic.ScaleFactorIsQuotient | tools/mosaic.py:52 | For a strength from 1 to 50 the factor is the floor of 50 / strength. |
| Mosaic.ScaleFactorIsOne | tools/mosaic.py:52 | The factor is 1 (no blur) exactly when the strength is negative or above 25. |
| Mosaic.ScaleFactorAntitone | tools/mosaic.py:52 | A larger strength never gives a larger factor: strength and blur run in opposite directions. |
| Mosaic.SmallSize | tools/mosaic.py:53 | The shrunk size is at least 1 by 1 and at most the area's size, and equals it when the factor is 1. |
| Mosaic.PixelateKeepsOutside | tools/mosaic.py:42-67 | The result has the input's mode and size, and every pixel outside the area is the input's. When the try block raises (strength 0, or a flat or inverted area), the input image itself comes back. |
| Mosaic.PixelateAtFactorOne | tools/mosaic.py:52-60 | With a factor of 1 the mosaic returns the image pixel for pixel. |
| Mosaic.FullStrengthIsIdentity | tools/mosaic.py:52-60 | Strength 50 leaves the image unchanged. |
| Mosaic.ProcessRemembers | tools/mosaic.py:30-40 | With no image or area, `process` returns its input and remembers nothing. Otherwise it remembers the area, and the strength unless none was given, in which case it uses the remembered one. |
| Mosaic.ProcessKeepsOutside | tools/mosaic.py:18-67 | Given an image, `process` returns an image of the same shape that differs from it only inside the area. |
| Mosaic.ApplyLastKeepsState | tools/mosaic.py:69-81 | Re-applying the last settings redoes the last mosaic on the given image and keeps the tool's state. With no remembered area it returns the image. |
| Mosaic.MosaicTool.constructor | tools/mosaic.py:13-16 | A new tool has no area and strength 10. |
| Mosaic.MosaicTool.Process | tools/mosaic.py:18-67 | The new fields and the result are those of the `process` specification. |
| Mosaic.MosaicTool.ApplyLastSettings | tools/mosaic.py:69-81 | The new fields and the result are those of the `apply_last_settings` specification. |
| Painter.ParseColorMeaning | tools/painter.py:64-82 | A well-formed `#RRGGBB` or `#RRGGBBAA` code parses to its channels, with alpha 255 for the short form. Anything else parses to opaque red: a non-string, no '#', a wrong length or a non-hex digit. |
| Painter.ParseColorCode | tools/painter.py:66-76 | Parsing the hex code of any colour gives the colour back, made opaque for the 6-digit form. |
| Painter.FillMeaning | tools/painter.py:53-92 | For a proper rectangle the result is RGBA, of the input's size. It has the parsed colour inside the rectangle, corners included, and the input (converted to RGBA) outside. |
| Painter.ProcessRemembers | tools/painter.py:43-51 | With no image or area, `process` returns its input and remembers nothing. Otherwise it remembers the area, never changes the colour, and fills with the given colour or else the stored one. |
| Painter.ApplyLastKeepsState | tools/painter.py:94-106 | Re-applying the last settings fills the remembered area with the stored colour and keeps the tool's state. With no remembered area or no image it returns the image. |
| Painter.PaintTool.constructor | tools/painter.py:13-16 | A new tool has colour `#FF0000` and no area. |
| Painter.PaintTool.SetColor | tools/painter.py:18-25 | Only the colour changes, to the given value. |
| Painter.PaintTool.GetColor | tools/painter.py:27-29 | Returns the stored colour. |
| Painter.PaintTool.Process | tools/painter.py:31-92 | The new fields and the result are those of the `process` specification. |
| Painter.PaintTool.ApplyLastSettings | tools/painter.py:94-106 | The new fields and the result are those of the `apply_last_settings` specification. |
| Trimmer.Clamp | tools/trimmer.py:40-43 | The clamped left and top edges lie on a pixel of the image, and the right and bottom edges within 0 and the width and height. |
| Trimmer.ClampKeepsInBounds | tools/trimmer.py:40-43 | A box already inside the image is not moved by clamping. |
| Trimmer.ClampIdempotent | tools/trimmer.py:40-43 | Clamping twice is clamping once. |
| Trimmer.TrimMeaning | tools/trimmer.py:36-53 | An empty clamped box returns the input. Otherwise the result is the window of the input at the clamped box: same mode, the box's size, every pixel the input's. The size is always between 1 by 1 and the input's. |
| Trimmer.TrimWholeImage | tools/trimmer.py:40-53 | A box covering the whole image (or more) returns the image unchanged. |
| Trimmer.TrimIdempotent | tools/trimmer.py:40-53 | Trimming the result again to its own full box changes nothing. |
| Trimmer.ProcessRemembers | tools/trimmer.py:28-32 | With no image or area, `process` returns its input and remembers nothing. Otherwise it remembers the area as given, not clamped. |
| Trimmer.ApplyLastKeepsState | tools/trimmer.py:60-72 | Re-applying the last settings trims with the remembered box and keeps the tool's state. |
| Trimmer.TrimTool.constructor | tools/trimmer.py:13-15 | A new tool has no area. |
| Trimmer.TrimTool.Process | tools/trimmer.py:17-58 | The new field and the result are those of the `process` specification. |
| Trimmer.TrimTool.ApplyLastSettings | tools/trimmer.py:60-72 | The new field and the result are those of the `apply_last_settings` specification. |
| SessionProperties.LoadResets | main.py:136-165 | A load either changes nothing, or makes the loaded image both current and original and clears mode and selection. The tools' memory and the world are untouched. |
| SessionProperties.PasteLoads | main.py:145-149 | Paste and the clipboard key both make the image read from the clipboard current and original and clear mode and selection; when nothing is read, nothing changes. |
| SessionProperties.DropLoads | main.py:151-157 | A drop of a path that is not a file changes nothing. A drop of a file loads it as the current and original image, clears mode and selection, and remembers its directory; when it does not load, nothing changes. |
| SessionProperties.OpenLoads | main.py:136-143 | Opening a file that loads makes it the image and remembers its directory. Opening a file that does not load changes nothing. |
| SessionProperties.CancelledDialogs | main.py:136-157 | A cancelled or empty path changes nothing, for open, drop and save alike. |
| SessionProperties.ChooseToolClearsSelection | main.py:167-172 | Choosing a tool sets the mode to it and clears the selection, and nothing else. |
| SessionProperties.NoImageNoChange | main.py:174-272 | With no image loaded, every image action changes neither the state nor the world. |
| SessionProperties.SelectionNeedsImageAndMode | main.py:183-186 | Ending a selection with no image or no tool chosen changes nothing. |
| SessionProperties.SpanNormalises | main.py:188-190 | The selected area is the rectangle spanned by the two corners, whichever way the mouse was dragged. |
| SessionProperties.FlatSelectionNoChange | main.py:192-193 | A selection without width or height changes nothing. |
| SessionProperties.SelectionEndKeepsSelection | main.py:108-111 | Ending a selection keeps the selection start, the mode, the original and the settings. Only the chosen tool's memory may change. |
| SessionProperties.SelectMosaic | main.py:198-200 | In mosaic mode, ending a proper selection pixelates it with the slider's strength and remembers both. |
| SessionProperties.ReapplyMosaic | main.py:206-217 | A strength event with a remembered mosaic area pixelates that area again with the new strength. |
| SessionProperties.StrengthEventGuard | main.py:114-117 | A strength event outside mosaic mode or without a selection changes nothing. Otherwise it redoes the mosaic over the tool's last area, with strength 10 when the event carries none. |
| SessionProperties.ColorEventGuard | main.py:120-123 | A picked colour is stored in the paint tool only in paint mode, and nothing else changes. |
| SessionProperties.BackgroundRemovalKeepsMode | main.py:174-181 | Background removal replaces the image and keeps the mode, the selection and the original. |
| SessionProperties.RotateFlipShape | main.py:236-253 | A quarter turn swaps width and height and a flip keeps the shape. Nothing else changes. |
| SessionProperties.QuitEvents | main.py:126-127 | The handler returns False exactly for the window-close and quit events, which change nothing. |
| SessionProperties.UnrecognisedEvents | main.py:134 | Any other event changes nothing and keeps the loop running. |
| SessionProperties.LastDirectoryUpdates | main.py:136-265 | Only open, drop and save may change the settings, and then only the last directory, set to the directory of the path used. |
| SessionProperties.SaveRemembersDirectory | main.py:255-265 | Saving writes through the I/O helper. The directory is remembered exactly when the save succeeds. |
| SessionProperties.CopyOnlyTouchesClipboard | main.py:267-272 | Copying changes neither the session nor the disk. |
| SessionProperties.OriginalOnlyOnLoad | main.py:159-165 | Only a load replaces the original image. |
| SessionProperties.StepConsistent | main.py:159-165 | Every modelled event keeps "there is an original exactly when there is a current image". The undecodable-file path listed under Session.Step in "Left out" is outside the model. |
| SessionProperties.RunConsistent | main.py:68-134 | Any run of modelled events keeps that invariant (the undecodable-file path under "Left out" excluded). |
| SessionProperties.InitialConsistent | main.py:50-53 | The editor starts with no image and in the invariant. |
| SessionProperties.RunStopsAtQuit | main.py:126-127 | No event after a quit event is handled. |
| SessionProperties.MosaicThenStrength | main.py:106-117 | Choosing mosaic, selecting a proper area and moving the slider pixelates the area twice: first with the selection-time strength, then with the new one. The tool ends up remembering the area and the new strength. |
| SessionProperties.LoadThenStrength | main.py:164-165 | After a new image loads, a strength event is a no-op, because the load cleared mode and selection. |
| SessionProperties.CopyThenPaste | main.py:145-149 | With the corrected clipboard assembly, on Windows with the clipboard libraries present, the clipboard free and the image's BMP file under 2^32 bytes, copying and pasting loads an image of the same size with the colours of the image converted to RGB. |
| SessionProperties.CopyThenPasteAsWritten | main.py:145-149 | As written, on Windows with the clipboard libraries present, the clipboard free and the image's BMP file under 2^32 bytes, pasting right after a copy leaves the session unchanged: the copied image never comes back. |
| Editor.QuickImageEditor.constructor | main.py:34-53 | A new editor has no image, mode or selection, fresh tools in their initial state, and the given settings. |
| Editor.QuickImageEditor.SetCurrentImage | main.py:159-165 | The fields become those of `Session.SetCurrentImage`. |
| Editor.QuickImageEditor.SetMode | main.py:167-172 | The fields become those of `Session.SetMode`. |
| Editor.QuickImageEditor.LoadImageFromFile | main.py:136-143 | The fields become those of `Session.LoadImageFromFile`. |
| Editor.QuickImageEditor.LoadImageFromClipboard | main.py:145-149 | The fields become those of `Session.LoadImageFromClipboard`. |
| Editor.QuickImageEditor.LoadImageFromDrop | main.py:151-157 | The fields become those of `Session.LoadImageFromDrop`. |
| Editor.QuickImageEditor.ProcessBackgroundRemoval | main.py:174-181 | The fields become those of `Session.ProcessBackgroundRemoval`. |
| Editor.QuickImageEditor.ApplyMosaic | main.py:206-219 | The fields and the mosaic tool become those of `Session.ApplyMosaic`. |
| Editor.QuickImageEditor.ApplyPaint | main.py:221-227 | The fields and the paint tool become those of `Session.ApplyPaint`. |
| Editor.QuickImageEditor.ApplyTrim | main.py:229-234 | The fields and the trim tool become those of `Session.ApplyTrim`. |
| Editor.QuickImageEditor.ProcessSelection | main.py:183-204 | The fields and tools become those of `Session.ProcessSelection`. |
| Editor.QuickImageEditor.RotateImage | main.py:236-242 | The fields become those of `Session.RotateImage`. |
| Editor.QuickImageEditor.FlipImage | main.py:244-253 | The fields become those of `Session.FlipImage`. |
| Editor.QuickImageEditor.SaveImage | main.py:255-265 | The fields and the world become those of `Session.SaveImage`. |
| Editor.QuickImageEditor.CopyToClipboard | main.py:267-272 | The editor is unchanged. The world becomes that of `Session.CopyImage`. |
| Editor.QuickImageEditor.HandleEvents | main.py:68-134 | The fields, tools and world become those of `Session.Step`. The return value is False exactly for the quit events. |
| Editor.QuickImageEditor.Run | main.py:55-66 | Handling events until one returns False leaves the fields, tools and world as `Session.Run` says. |

## Left out

- The GUI (`ui/quick_ui.py`) is not part of this model: drawing, dialogs, `show_info`, `show_error` and `show_processing`. Its answers are carried inside the events.
- Reading and writing the settings JSON file (`main.py:274-297`) and the error popup in `run` are left out, because they are file and GUI I/O. The constructor takes the settings as a parameter.
- Session.Step: a file Pillow opens but cannot decode is modelled as an `Unreadable` entry whose load gives nothing. In the code, when such an image is already in its target mode, `load_from_file` returns it still lazily opened; `main.py:161` sets the current image, `image.copy()` then raises at `main.py:162`, and the handler at `main.py:129-132` reports it. That leaves a broken current image beside the old original, mode and selection, so "original exactly when current" does not hold on that path. The same path exists for a paste: `Image.open` of a clipboard BMP whose pixel data is cut short succeeds lazily, so the error surfaces at `main.py:162` after `main.py:161` has set the current image, while the model's `decodeBmp` gives nothing for such a file. The model does not capture either case, because it has no notion of a lazily decoded image. Exceptions raised by the GUI and by the background remover are not modelled either.
- IoUtils.ImageIO.LoadFromClipboard: the Tk fallback (`tools/io_utils.py:107-126`) is modelled as never yielding an image. It calls `ImageGrab`, which is never imported, so it always ends in a caught exception.
- IoUtils.ImageIO.LoadFromClipboard assembles the BMP file with the corrected header (see Findings), not the code as written.
- IoUtils.ImageIO.CopyToClipboard: on Windows a copy fails, leaving the clipboard as it was, when the BMP encoder refuses a file of 2^32 bytes or more (`tools/io_utils.py:192`) or when another process holds the clipboard so that `OpenClipboard` raises (`tools/io_utils.py:197`); both are caught at `tools/io_utils.py:255-257`. A lock that makes only `EmptyClipboard` or `SetClipboardData` raise, after the clipboard was opened, is not modelled separately: a held clipboard is modelled as `OpenClipboard` raising, before anything changes.
- IoUtils.ImageIO.CopyToClipboard: on macOS and Linux, what `osascript` or `xclip` puts on the clipboard is not modelled. Only the success flag is, which depends on the PNG save and on the helper program being present. The temporary file is not modelled.
- Resampling, rotation, transposition, colour conversion and the file codecs are function values in `Imaging.Pillow`, constrained only by its contract predicates. The PNG and JPEG pixel encodings are not modelled.
- Imaging.Pillow.BmpContract promises a standard 24-bit BMP only for an RGB image whose file fits the 4-byte size field, and a read-back with the same size and colour channels; Pillow's exact BMP byte layout is not modelled.
- The background remover (`tools/bg_remover.py`) is not part of this model. It is an arbitrary `Image -> Image` function.
- Painter.ParseColor accepts exactly two hex digits per channel. Python's `int(s, 16)` also accepts surrounding whitespace, a sign and Unicode decimal digits such as fullwidth ones. Those spellings (e.g. `"# F0000"` or `"#１２３４５６"`) are modelled as malformed, giving red, where Python would parse them.
- Session.Event: the mosaic strength and the slider value are integers. The GUI's slider may deliver a float, and the float arithmetic of `50 / strength` is not modelled.
- Paths.Dirname and Paths.Extension follow POSIX `os.path`; Windows drive letters and backslash separators are not modelled. Paths.Lower lower-cases ASCII letters only.
- IoUtils.Disk: a path that exists but is not a regular file (a directory), a file that opens but fails to decode, and a file truncated by a failed save are all `Unreadable` entries. `os.path.isfile` for drops is membership in `files`.
- Session.Run stands for the GUI's event loop (`gui.run()`), which hands each event to the handler until it returns False.

## Findings

| source | as written | input that shows it | evidently intended | confidence | as-written member | corrected member |
|---|---|---|---|---|---|---|
| tools/io_utils.py:94-95 | The BMP file built from CF_DIB data is `header(len(data)) + data[14:]`. It drops 14 bytes of the DIB, which has no file header, and puts the DIB's own length in the size field. | Any standard BMP file `bmp`, with `data = bmp[14:]`, exactly what `copy_to_clipboard` puts on the clipboard. The assembled file is 14 bytes shorter than `bmp` (or has a wrong size field when `bmp` is only a header), so it is never `bmp`. Its bytes 14-18, where the info header size belongs, read 24, which Pillow's BMP reader refuses, so pasting right after a copy loads nothing (IoUtils.CopyPasteAsWrittenFails, SessionProperties.CopyThenPasteAsWritten). | `header(len(data) + 14) + data`, which gives back the file the DIB was cut from. | not executed | BmpFile.AsWrittenBreaksRoundTrip | BmpFile.DibRoundTrip |
