/**
 * The editor object: its fields change step by step as events are handled,
 * and every method is proved to leave the fields, the tools and the world
 * as the session specification says.
 */
module Editor {
  import opened Wrappers
  import opened Images
  import opened Imaging
  import opened IoUtils
  import opened Session
  import Mosaic
  import Painter
  import Trimmer

  class QuickImageEditor {
    var settings: map<string, SettingValue>
    const imageIo: ImageIO
    /** `bg_remover.process` */
    const removeBackground: Image -> Image
    const pillow: Pillow
    const platform: Platform
    const mosaicTool: Mosaic.MosaicTool
    const paintTool: Painter.PaintTool
    const trimTool: Trimmer.TrimTool
    var currentImage: Option<Image>
    var originalImage: Option<Image>
    var currentMode: Option<ToolMode>
    var selectionArea: Option<Point>

    /** Everything the editor is given and never changes. */
    function Environment(): Session.Env {
      Session.Env(pillow, removeBackground, platform, imageIo)
    }

    /** The editor's fields and its tools' fields, as one value. */
    function State(): SessionState
      reads this, mosaicTool, paintTool, trimTool
    {
      SessionState(currentImage, originalImage, currentMode, selectionArea, settings,
                   mosaicTool.State(), paintTool.State(), trimTool.State())
    }

    /** `settings` is what `_load_settings` returned. */
    constructor(pillow: Pillow, removeBackground: Image -> Image, platform: Platform, imageIo: ImageIO,
                settings: map<string, SettingValue>)
      ensures Environment() == Session.Env(pillow, removeBackground, platform, imageIo)
      ensures State() == Initial(settings)
      ensures fresh(mosaicTool) && fresh(paintTool) && fresh(trimTool)
    {
      this.settings := settings;
      this.imageIo := imageIo;
      this.removeBackground := removeBackground;
      this.pillow := pillow;
      this.platform := platform;
      mosaicTool := new Mosaic.MosaicTool();
      paintTool := new Painter.PaintTool();
      trimTool := new Trimmer.TrimTool();
      currentImage := None;
      originalImage := None;
      currentMode := None;
      selectionArea := None;
    }

    method SetCurrentImage(im: Image)
      modifies this
      ensures State() == Session.SetCurrentImage(old(State()), im)
    {
      currentImage := Some(im);
      originalImage := Some(im);
      currentMode := None;
      selectionArea := None;
    }

    method SetMode(m: ToolMode)
      modifies this
      ensures State() == Session.SetMode(old(State()), m)
    {
      currentMode := Some(m);
      selectionArea := None;
    }

    method LoadImageFromFile(picked: Option<string>, w: World)
      modifies this
      ensures State() == Session.LoadImageFromFile(Environment(), old(State()), w, picked)
    {
      if picked.Some? && picked.value != "" {
        var image := imageIo.LoadFromFile(pillow, w.disk, picked.value);
        if image.Some? {
          SetCurrentImage(image.value);
          settings := settings[LastDirectory := Text(Paths.Dirname(picked.value))];
        }
      }
    }

    method LoadImageFromClipboard(w: World)
      modifies this
      ensures State() == Session.LoadImageFromClipboard(Environment(), old(State()), w)
    {
      var image := imageIo.LoadFromClipboard(pillow, w.clipboard);
      if image.Some? {
        SetCurrentImage(image.value);
      }
    }

    method LoadImageFromDrop(path: Option<string>, w: World)
      modifies this
      ensures State() == Session.LoadImageFromDrop(Environment(), old(State()), w, path)
    {
      if path.Some? && path.value != "" && path.value in w.disk.files {
        var image := imageIo.LoadFromFile(pillow, w.disk, path.value);
        if image.Some? {
          SetCurrentImage(image.value);
          settings := settings[LastDirectory := Text(Paths.Dirname(path.value))];
        }
      }
    }

    method ProcessBackgroundRemoval()
      modifies this
      ensures State() == Session.ProcessBackgroundRemoval(Environment(), old(State()))
    {
      if currentImage.Some? {
        currentImage := Some(removeBackground(currentImage.value));
      }
    }

    method ApplyMosaic(strength: int, area: Option<Area>)
      modifies this, mosaicTool
      ensures State() == Session.ApplyMosaic(Environment(), old(State()), strength, area)
    {
      if currentImage.Some? {
        var result: Option<Image>;
        if area.Some? {
          result := mosaicTool.Process(pillow, currentImage, area, Some(strength));
        } else {
          result := mosaicTool.Process(pillow, currentImage, mosaicTool.lastArea, Some(strength));
        }
        currentImage := result;
      }
    }

    method ApplyPaint(area: Area)
      modifies this, paintTool
      ensures State() == Session.ApplyPaint(Environment(), old(State()), area)
    {
      if currentImage.Some? {
        var color := paintTool.GetColor();
        var result := paintTool.Process(pillow, currentImage, Some(area), Some(color));
        currentImage := result;
      }
    }

    method ApplyTrim(area: Area)
      modifies this, trimTool
      ensures State() == Session.ApplyTrim(old(State()), area)
    {
      if currentImage.Some? {
        var result := trimTool.Process(currentImage, Some(area));
        currentImage := result;
      }
    }

    method ProcessSelection(start: Point, end: Point, slider: int)
      modifies this, mosaicTool, paintTool, trimTool
      ensures State() == Session.ProcessSelection(Environment(), old(State()), start, end, slider)
    {
      if currentImage.None? || currentMode.None? {
        return;
      }
      var x1 := if start.x < end.x then start.x else end.x;
      var y1 := if start.y < end.y then start.y else end.y;
      var x2 := if start.x < end.x then end.x else start.x;
      var y2 := if start.y < end.y then end.y else start.y;
      if x1 == x2 || y1 == y2 {
        return;
      }
      var area := Area(x1, y1, x2, y2);
      match currentMode.value
      case MosaicMode => ApplyMosaic(slider, Some(area));
      case PaintMode => ApplyPaint(area);
      case TrimMode => ApplyTrim(area);
    }

    method RotateImage(angle: int)
      modifies this
      ensures State() == Session.RotateImage(Environment(), old(State()), angle)
    {
      if currentImage.Some? {
        currentImage := Some(pillow.rotate(currentImage.value, angle));
      }
    }

    method FlipImage(horizontal: bool)
      modifies this
      ensures State() == Session.FlipImage(Environment(), old(State()), horizontal)
    {
      if currentImage.Some? {
        if horizontal {
          currentImage := Some(pillow.flipLeftRight(currentImage.value));
        } else {
          currentImage := Some(pillow.flipTopBottom(currentImage.value));
        }
      }
    }

    method SaveImage(picked: Option<string>, w: World) returns (w': World)
      modifies this
      ensures (State(), w') == Session.SaveImage(Environment(), old(State()), w, picked)
    {
      w' := w;
      if currentImage.Some? && picked.Some? && picked.value != "" {
        var (success, disk') := imageIo.SaveToFile(pillow, w.disk, currentImage.value, picked.value);
        w' := w.(disk := disk');
        if success {
          settings := settings[LastDirectory := Text(Paths.Dirname(picked.value))];
        }
      }
    }

    method CopyToClipboard(w: World) returns (w': World)
      ensures w' == Session.CopyImage(Environment(), State(), w)
    {
      w' := w;
      if currentImage.Some? {
        var (success, clipboard') := imageIo.CopyToClipboard(pillow, platform, w.clipboard, currentImage.value);
        w' := w.(clipboard := clipboard');
      }
    }

    /** `_handle_events(event, values)`: returns whether the GUI loop goes on. */
    method HandleEvents(e: Event, w: World) returns (keepRunning: bool, w': World)
      modifies this, mosaicTool, paintTool, trimTool
      ensures (State(), w') == Step(Environment(), old(State()), e, w)
      ensures keepRunning == KeepsRunning(e)
    {
      w' := w;
      keepRunning := true;
      match e
      case Open(picked) => LoadImageFromFile(picked, w);
      case Paste => LoadImageFromClipboard(w);
      case ClipboardKey => LoadImageFromClipboard(w);
      case Drop(path) => LoadImageFromDrop(path, w);
      case RemoveBackground => ProcessBackgroundRemoval();
      case ChooseMosaic => SetMode(MosaicMode);
      case ChoosePaint => SetMode(PaintMode);
      case ChooseTrim => SetMode(TrimMode);
      case RotateLeft => RotateImage(90);
      case RotateRight => RotateImage(-90);
      case FlipHorizontal => FlipImage(true);
      case FlipVertical => FlipImage(false);
      case Save(picked) => w' := SaveImage(picked, w);
      case Copy => w' := CopyToClipboard(w);
      case SelectionStart(start) => selectionArea := start;
      case SelectionEnd(end, slider) =>
        if selectionArea.Some? && end.Some? {
          ProcessSelection(selectionArea.value, end.value, slider);
        }
      case MosaicStrength(strength) =>
        if currentMode == Some(MosaicMode) && selectionArea.Some? {
          ApplyMosaic(strength.GetOr(10), None);
        }
      case ColorPicked(c) =>
        if currentMode == Some(PaintMode) {
          paintTool.SetColor(c);
        }
      case WindowClosed => keepRunning := false;
      case Exit => keepRunning := false;
      case Unrecognised(_) =>
    }

    /** The GUI's event loop driving the handler: events are handled in order until one asks to stop. */
    method Run(events: seq<Event>, w: World) returns (w': World)
      modifies this, mosaicTool, paintTool, trimTool
      ensures (State(), w') == Session.Run(Environment(), old(State()), events, w)
    {
      w' := w;
      var i := 0;
      while i < |events|
        invariant 0 <= i <= |events|
        invariant Session.Run(Environment(), State(), events[i..], w') == Session.Run(Environment(), old(State()), events, w)
        decreases |events| - i
      {
        var keepRunning;
        keepRunning, w' := HandleEvents(events[i], w');
        if !keepRunning {
          return;
        }
        i := i + 1;
      }
    }
  }
}
