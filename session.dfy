/**
 * The editing session as a state machine: what one GUI event does to the
 * editor's fields, the three tools' remembered state and the outside world
 * (disk and clipboard). The answers the GUI gives while an event is handled
 * (a dialog's path, the slider's value, an entry of the values dict) travel
 * inside the event.
 */
module Session {
  import opened Wrappers
  import opened Images
  import opened Imaging
  import opened Paths
  import opened IoUtils
  import Mosaic
  import Painter
  import Trimmer

  /** `current_mode` when set: "mosaic", "paint" or "trim". */
  datatype ToolMode = MosaicMode | PaintMode | TrimMode

  /** A value of the settings dictionary. */
  datatype SettingValue = Text(text: string) | Size(width: int, height: int)

  const LastDirectory := "last_directory"

  /** The settings used when no settings file can be read. */
  const DefaultSettings: map<string, SettingValue> :=
    map["last_directory" := Text(""), "default_save_format" := Text("png"), "window_size" := Size(800, 600)]

  /** The event keys the handler matches, and everything else. */
  datatype Event =
    | Open(picked: Option<string>)                  // 開く, with the file dialog's answer
    | Paste                                         // ペースト
    | ClipboardKey                                  // クリップボード
    | Drop(path: Option<string>)                    // ドロップ, with values["ドロップ"] ("" when absent)
    | RemoveBackground                              // 背景透過
    | ChooseMosaic                                  // モザイク
    | ChoosePaint                                   // 塗りつぶし
    | ChooseTrim                                    // トリム
    | RotateLeft                                    // 左回転
    | RotateRight                                   // 右回転
    | FlipHorizontal                                // 水平反転
    | FlipVertical                                  // 垂直反転
    | Save(picked: Option<string>)                  // 保存, with the save dialog's answer
    | Copy                                          // コピー
    | SelectionStart(start: Option<Point>)          // 選択開始, with values["選択開始"]
    | SelectionEnd(end: Option<Point>, slider: int) // 選択終了, with values["選択終了"] and the strength slider
    | MosaicStrength(strength: Option<int>)         // モザイク強度, with values["モザイク強度"] (10 when absent)
    | ColorPicked(color: Painter.ColorValue)        // 色選択, with values["色選択"]
    | WindowClosed                                  // None
    | Exit                                          // 終了
    | Unrecognised(key: string)                     // any other key

  /** What the session is given and cannot change: the imaging library, the background remover, the platform and the I/O helper. */
  datatype Env = Env(pillow: Pillow, removeBackground: Image -> Image, platform: Platform, io: ImageIO)

  /** What the session reads and changes outside itself. */
  datatype World = World(disk: Disk, clipboard: Clipboard)

  /** The editor's fields together with the state its three tools remember. */
  datatype SessionState = SessionState(
    current: Option<Image>,
    original: Option<Image>,
    mode: Option<ToolMode>,
    selection: Option<Point>,
    settings: map<string, SettingValue>,
    mosaic: Mosaic.MosaicState,
    paint: Painter.PaintState,
    trim: Trimmer.TrimState)

  /** The state right after start-up with the given settings. */
  function Initial(settings: map<string, SettingValue>): SessionState {
    SessionState(None, None, None, None, settings, Mosaic.InitialState, Painter.InitialState, Trimmer.InitialState)
  }

  /** Python truthiness of a path: neither None nor empty. */
  predicate Chosen(path: Option<string>) {
    path.Some? && path.value != ""
  }

  /** `_set_current_image`: the image and a copy of it as the original; mode and selection are reset. */
  function SetCurrentImage(st: SessionState, im: Image): SessionState {
    st.(current := Some(im), original := Some(im), mode := None, selection := None)
  }

  /** `settings["last_directory"] = os.path.dirname(path)` */
  function RememberDirectory(st: SessionState, path: string): SessionState {
    st.(settings := st.settings[LastDirectory := Text(Dirname(path))])
  }

  /** `_set_mode` */
  function SetMode(st: SessionState, m: ToolMode): SessionState {
    st.(mode := Some(m), selection := None)
  }

  /** `_load_image_from_file`, given the dialog's answer. */
  function LoadImageFromFile(env: Env, st: SessionState, w: World, picked: Option<string>): SessionState {
    if !Chosen(picked) then st
    else
      match env.io.LoadFromFile(env.pillow, w.disk, picked.value)
      case None => st
      case Some(im) => RememberDirectory(SetCurrentImage(st, im), picked.value)
  }

  /** `_load_image_from_clipboard` */
  function LoadImageFromClipboard(env: Env, st: SessionState, w: World): SessionState {
    match env.io.LoadFromClipboard(env.pillow, w.clipboard)
    case None => st
    case Some(im) => SetCurrentImage(st, im)
  }

  /**
   * `_load_image_from_clipboard` with the clipboard's BMP file assembled as
   * the code writes it; the rest of the model uses the corrected assembly.
   */
  function LoadImageFromClipboardAsWritten(env: Env, st: SessionState, w: World): SessionState {
    match env.io.LoadFromClipboardAsWritten(env.pillow, w.clipboard)
    case None => st
    case Some(im) => SetCurrentImage(st, im)
  }

  /** `_load_image_from_drop`: like a file load, but only for a path that is a file. */
  function LoadImageFromDrop(env: Env, st: SessionState, w: World, path: Option<string>): SessionState {
    if !(Chosen(path) && path.value in w.disk.files) then st
    else
      match env.io.LoadFromFile(env.pillow, w.disk, path.value)
      case None => st
      case Some(im) => RememberDirectory(SetCurrentImage(st, im), path.value)
  }

  /** `_process_bg_remove`: the result replaces the image; mode and selection stay. */
  function ProcessBackgroundRemoval(env: Env, st: SessionState): SessionState {
    if st.current.None? then st
    else st.(current := Some(env.removeBackground(st.current.value)))
  }

  /** The rectangle spanned by two corners, as `(min x, min y, max x, max y)`. */
  function Span(start: Point, end: Point): Area {
    Area(if start.x < end.x then start.x else end.x, if start.y < end.y then start.y else end.y,
         if start.x < end.x then end.x else start.x, if start.y < end.y then end.y else start.y)
  }

  /** `_apply_mosaic(strength, area)`: without an area, the mosaic tool's last area is used. */
  function ApplyMosaic(env: Env, st: SessionState, strength: int, area: Option<Area>): SessionState {
    if st.current.None? then st
    else
      var a := if area.Some? then area else st.mosaic.lastArea;
      var (ms, r) := Mosaic.ProcessOutcome(st.mosaic, env.pillow, st.current, a, Some(strength));
      st.(mosaic := ms, current := r)
  }

  /** `_apply_paint(area)`, with the paint tool's own colour. */
  function ApplyPaint(env: Env, st: SessionState, area: Area): SessionState {
    if st.current.None? then st
    else
      var (ps, r) := Painter.ProcessOutcome(st.paint, env.pillow, st.current, Some(area), Some(st.paint.color));
      st.(paint := ps, current := r)
  }

  /** `_apply_trim(area)` */
  function ApplyTrim(st: SessionState, area: Area): SessionState {
    if st.current.None? then st
    else
      var (ts, r) := Trimmer.ProcessOutcome(st.trim, st.current, Some(area));
      st.(trim := ts, current := r)
  }

  /** `_process_selection(start, end)`, with the slider's value for the mosaic strength. */
  function ProcessSelection(env: Env, st: SessionState, start: Point, end: Point, slider: int): SessionState {
    if st.current.None? || st.mode.None? then st
    else
      var area := Span(start, end);
      if area.x1 == area.x2 || area.y1 == area.y2 then st
      else
        match st.mode.value
        case MosaicMode => ApplyMosaic(env, st, slider, Some(area))
        case PaintMode => ApplyPaint(env, st, area)
        case TrimMode => ApplyTrim(st, area)
  }

  /** `_rotate_image(angle)`, with `expand=True`. */
  function RotateImage(env: Env, st: SessionState, angle: int): SessionState {
    if st.current.None? then st
    else st.(current := Some(env.pillow.rotate(st.current.value, angle)))
  }

  /** `_flip_image(direction)`: left-right for "horizontal", top-bottom otherwise. */
  function FlipImage(env: Env, st: SessionState, horizontal: bool): SessionState {
    if st.current.None? then st
    else if horizontal then st.(current := Some(env.pillow.flipLeftRight(st.current.value)))
    else st.(current := Some(env.pillow.flipTopBottom(st.current.value)))
  }

  /** `_save_image`, given the dialog's answer: the directory is remembered only after a successful save. */
  function SaveImage(env: Env, st: SessionState, w: World, picked: Option<string>): (SessionState, World) {
    if st.current.None? || !Chosen(picked) then (st, w)
    else
      var (ok, disk') := env.io.SaveToFile(env.pillow, w.disk, st.current.value, picked.value);
      (if ok then RememberDirectory(st, picked.value) else st, w.(disk := disk'))
  }

  /** `_copy_to_clipboard`: changes only the clipboard. */
  function CopyImage(env: Env, st: SessionState, w: World): World {
    if st.current.None? then w
    else w.(clipboard := env.io.CopyToClipboard(env.pillow, env.platform, w.clipboard, st.current.value).1)
  }

  /** `_handle_events(event, values)`: the state and world after one event. */
  function Step(env: Env, st: SessionState, e: Event, w: World): (SessionState, World) {
    match e
    case Open(picked) => (LoadImageFromFile(env, st, w, picked), w)
    case Paste => (LoadImageFromClipboard(env, st, w), w)
    case ClipboardKey => (LoadImageFromClipboard(env, st, w), w)
    case Drop(path) => (LoadImageFromDrop(env, st, w, path), w)
    case RemoveBackground => (ProcessBackgroundRemoval(env, st), w)
    case ChooseMosaic => (SetMode(st, MosaicMode), w)
    case ChoosePaint => (SetMode(st, PaintMode), w)
    case ChooseTrim => (SetMode(st, TrimMode), w)
    case RotateLeft => (RotateImage(env, st, 90), w)
    case RotateRight => (RotateImage(env, st, -90), w)
    case FlipHorizontal => (FlipImage(env, st, true), w)
    case FlipVertical => (FlipImage(env, st, false), w)
    case Save(picked) => SaveImage(env, st, w, picked)
    case Copy => (st, CopyImage(env, st, w))
    case SelectionStart(start) => (st.(selection := start), w)
    case SelectionEnd(end, slider) =>
      if st.selection.Some? && end.Some? then (ProcessSelection(env, st, st.selection.value, end.value, slider), w)
      else (st, w)
    case MosaicStrength(strength) =>
      if st.mode == Some(MosaicMode) && st.selection.Some? then (ApplyMosaic(env, st, strength.GetOr(10), None), w)
      else (st, w)
    case ColorPicked(c) =>
      if st.mode == Some(PaintMode) then (st.(paint := st.paint.(color := c)), w)
      else (st, w)
    case WindowClosed => (st, w)
    case Exit => (st, w)
    case Unrecognised(_) => (st, w)
  }

  /** The handler's return value: False ends the GUI loop. */
  predicate KeepsRunning(e: Event) {
    !(e.WindowClosed? || e.Exit?)
  }

  /** The GUI loop: events are handled in order until one returns False. */
  function Run(env: Env, st: SessionState, events: seq<Event>, w: World): (SessionState, World)
    decreases |events|
  {
    if events == [] then (st, w)
    else
      var (st', w') := Step(env, st, events[0], w);
      if KeepsRunning(events[0]) then Run(env, st', events[1..], w') else (st', w')
  }
}
