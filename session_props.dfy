/**
 * What the session controller promises, stated over `Session.Step` and
 * `Session.Run`.
 */
module SessionProperties {
  import opened Wrappers
  import opened Images
  import opened Imaging
  import opened Paths
  import opened BmpFile
  import opened IoUtils
  import opened Session
  import Mosaic
  import Painter
  import Trimmer

  /** The events that load an image. */
  predicate IsLoad(e: Event) {
    e.Open? || e.Paste? || e.ClipboardKey? || e.Drop?
  }

  /** The events whose handler starts with `if self.current_image:` (directly or through `_process_selection`). */
  predicate NeedsImage(e: Event) {
    || e.RemoveBackground? || e.RotateLeft? || e.RotateRight? || e.FlipHorizontal? || e.FlipVertical?
    || e.Save? || e.Copy? || e.SelectionEnd? || e.MosaicStrength?
  }

  /**
   * A load either changes nothing or makes the loaded image both the
   * current and the original image and clears mode and selection; the
   * tools keep what they remember and the world is not touched.
   */
  lemma LoadResets(env: Env, st: SessionState, e: Event, w: World)
    requires IsLoad(e)
    ensures var (st', w') := Step(env, st, e, w);
      && w' == w
      && st'.mosaic == st.mosaic && st'.paint == st.paint && st'.trim == st.trim
      && (st' == st || (st'.current.Some? && st'.original == st'.current && st'.mode.None? && st'.selection.None?))
  {
  }

  /** Opening a file that loads makes it the image and remembers its directory; otherwise nothing changes. */
  lemma OpenLoads(env: Env, st: SessionState, path: string, w: World)
    requires path != ""
    ensures var st' := Step(env, st, Open(Some(path)), w).0;
      match env.io.LoadFromFile(env.pillow, w.disk, path)
      case None => st' == st
      case Some(im) =>
        && st'.current == Some(im) && st'.original == Some(im)
        && st'.mode.None? && st'.selection.None?
        && st'.settings == st.settings[LastDirectory := Text(Dirname(path))]
  {
  }

  /**
   * Pasting makes the image read from the clipboard the current and the
   * original image and clears mode and selection; when nothing is read,
   * nothing changes.
   */
  lemma PasteLoads(env: Env, st: SessionState, w: World)
    ensures var st' := Step(env, st, Paste, w).0;
      && Step(env, st, ClipboardKey, w).0 == st'
      && match env.io.LoadFromClipboard(env.pillow, w.clipboard)
         case None => st' == st
         case Some(im) => st' == st.(current := Some(im), original := Some(im), mode := None, selection := None)
  {
  }

  /**
   * Dropping a path that is a file and loads makes it the image and
   * remembers its directory; a path that is not a file, or does not load,
   * changes nothing.
   */
  lemma DropLoads(env: Env, st: SessionState, path: string, w: World)
    requires path != ""
    ensures var st' := Step(env, st, Drop(Some(path)), w).0;
      && (path !in w.disk.files ==> st' == st)
      && (path in w.disk.files ==>
            match env.io.LoadFromFile(env.pillow, w.disk, path)
            case None => st' == st
            case Some(im) =>
              st' == st.(current := Some(im), original := Some(im), mode := None, selection := None,
                         settings := st.settings[LastDirectory := Text(Dirname(path))]))
  {
  }

  /** A cancelled dialog (None or an empty path) changes nothing. */
  lemma CancelledDialogs(env: Env, st: SessionState, picked: Option<string>, w: World)
    requires !Chosen(picked)
    ensures Step(env, st, Open(picked), w) == (st, w)
    ensures Step(env, st, Save(picked), w) == (st, w)
    ensures Step(env, st, Drop(picked), w) == (st, w)
  {
  }

  /** Choosing a tool sets the mode to it and clears the selection, and nothing else. */
  lemma ChooseToolClearsSelection(env: Env, st: SessionState, e: Event, w: World)
    requires e.ChooseMosaic? || e.ChoosePaint? || e.ChooseTrim?
    ensures var (st', w') := Step(env, st, e, w);
      && w' == w
      && st'.mode == Some(if e.ChooseMosaic? then MosaicMode else if e.ChoosePaint? then PaintMode else TrimMode)
      && st'.selection.None?
      && st' == st.(mode := st'.mode, selection := None)
  {
  }

  /** Every action on the image does nothing while no image is loaded. */
  lemma NoImageNoChange(env: Env, st: SessionState, e: Event, w: World)
    requires st.current.None? && NeedsImage(e)
    ensures Step(env, st, e, w) == (st, w)
  {
  }

  /** Ending a selection with no image or no tool chosen changes nothing. */
  lemma SelectionNeedsImageAndMode(env: Env, st: SessionState, end: Option<Point>, slider: int, w: World)
    requires st.current.None? || st.mode.None?
    ensures Step(env, st, SelectionEnd(end, slider), w) == (st, w)
  {
  }

  /** The selected area spans the two corners whichever way the mouse was dragged. */
  lemma SpanNormalises(start: Point, end: Point)
    ensures var a := Span(start, end);
      && a.x1 <= a.x2 && a.y1 <= a.y2
      && (a.x1 == start.x || a.x1 == end.x) && (a.x2 == start.x || a.x2 == end.x)
      && (a.y1 == start.y || a.y1 == end.y) && (a.y2 == start.y || a.y2 == end.y)
      && a.x1 <= start.x <= a.x2 && a.x1 <= end.x <= a.x2
      && a.y1 <= start.y <= a.y2 && a.y1 <= end.y <= a.y2
    ensures Span(start, end) == Span(end, start)
  {
  }

  /** A selection with no width or no height changes nothing, in any mode. */
  lemma FlatSelectionNoChange(env: Env, st: SessionState, end: Point, slider: int, w: World)
    requires st.selection.Some?
    requires st.selection.value.x == end.x || st.selection.value.y == end.y
    ensures Step(env, st, SelectionEnd(Some(end), slider), w) == (st, w)
  {
  }

  /**
   * Ending a selection keeps the selection's start, so a later strength
   * event can still re-apply the mosaic; only the image and the chosen
   * tool's memory may change.
   */
  lemma SelectionEndKeepsSelection(env: Env, st: SessionState, end: Option<Point>, slider: int, w: World)
    ensures var (st', w') := Step(env, st, SelectionEnd(end, slider), w);
      && w' == w
      && st'.selection == st.selection && st'.mode == st.mode
      && st'.original == st.original && st'.settings == st.settings
      && (st.mode != Some(MosaicMode) ==> st'.mosaic == st.mosaic)
      && (st.mode != Some(PaintMode) ==> st'.paint == st.paint)
      && (st.mode != Some(TrimMode) ==> st'.trim == st.trim)
  {
  }

  /**
   * A strength event outside mosaic mode or without a selection changes
   * nothing; otherwise it redoes the mosaic over the mosaic tool's last
   * area with the new strength (10 when the event carries none).
   */
  lemma StrengthEventGuard(env: Env, st: SessionState, strength: Option<int>, w: World)
    ensures var (st', w') := Step(env, st, MosaicStrength(strength), w);
      && w' == w
      && (st.mode != Some(MosaicMode) || st.selection.None? ==> st' == st)
      && (st.mode == Some(MosaicMode) && st.selection.Some? && st.current.Some? ==>
            var (ms, r) := Mosaic.ProcessOutcome(st.mosaic, env.pillow, st.current, st.mosaic.lastArea, Some(strength.GetOr(10)));
            st' == st.(mosaic := ms, current := r))
  {
  }

  /** A picked colour is stored only in paint mode, and nothing else changes. */
  lemma ColorEventGuard(env: Env, st: SessionState, c: Painter.ColorValue, w: World)
    ensures var (st', w') := Step(env, st, ColorPicked(c), w);
      && w' == w
      && (st.mode == Some(PaintMode) ==> st' == st.(paint := st.paint.(color := c)))
      && (st.mode != Some(PaintMode) ==> st' == st)
  {
  }

  /** Background removal replaces the image and keeps the mode, the selection and the original. */
  lemma BackgroundRemovalKeepsMode(env: Env, st: SessionState, w: World)
    requires st.current.Some?
    ensures Step(env, st, RemoveBackground, w) == (st.(current := Some(env.removeBackground(st.current.value))), w)
  {
  }

  /** A quarter turn swaps width and height; flips keep the shape. Nothing else changes. */
  lemma RotateFlipShape(env: Env, st: SessionState, e: Event, w: World)
    requires env.pillow.Valid() && st.current.Some?
    requires e.RotateLeft? || e.RotateRight? || e.FlipHorizontal? || e.FlipVertical?
    ensures var (st', w') := Step(env, st, e, w);
      && w' == w
      && st'.current.Some?
      && st' == st.(current := st'.current)
      && (e.RotateLeft? || e.RotateRight? ==>
            st'.current.value.width == st.current.value.height && st'.current.value.height == st.current.value.width)
      && (e.FlipHorizontal? || e.FlipVertical? ==> SameShape(st'.current.value, st.current.value))
  {
  }

  /** The handler returns False exactly for the quit events, which change nothing. */
  lemma QuitEvents(env: Env, st: SessionState, e: Event, w: World)
    ensures !KeepsRunning(e) <==> e == WindowClosed || e == Exit
    ensures !KeepsRunning(e) ==> Step(env, st, e, w) == (st, w)
  {
  }

  /** Unrecognised events change nothing and keep the loop running. */
  lemma UnrecognisedEvents(env: Env, st: SessionState, key: string, w: World)
    ensures KeepsRunning(Unrecognised(key)) && Step(env, st, Unrecognised(key), w) == (st, w)
  {
  }

  /**
   * Only opening a file, dropping a file or saving may change the
   * settings, and then only the last directory, set to the directory of
   * the path used; a clipboard load or a copy never does.
   */
  lemma LastDirectoryUpdates(env: Env, st: SessionState, e: Event, w: World)
    ensures var st' := Step(env, st, e, w).0;
      && (!(e.Open? || e.Drop? || e.Save?) ==> st'.settings == st.settings)
      && (e.Open? || e.Drop? || e.Save? ==>
            st'.settings == st.settings ||
            (Chosen(if e.Save? then e.picked else if e.Open? then e.picked else e.path) &&
             st'.settings == st.settings[LastDirectory := Text(Dirname((if e.Save? then e.picked else if e.Open? then e.picked else e.path).value))]))
  {
  }

  /** A save that succeeds remembers the directory of the path saved to; one that fails does not. */
  lemma SaveRemembersDirectory(env: Env, st: SessionState, path: string, w: World)
    requires st.current.Some? && path != ""
    ensures var (st', w') := Step(env, st, Save(Some(path)), w);
      var (ok, disk') := env.io.SaveToFile(env.pillow, w.disk, st.current.value, path);
      && w' == w.(disk := disk')
      && (ok ==> st' == st.(settings := st.settings[LastDirectory := Text(Dirname(path))]))
      && (!ok ==> st' == st)
  {
    assert Chosen(Some(path));
    assert Step(env, st, Save(Some(path)), w) == SaveImage(env, st, w, Some(path));
  }

  /** Copying changes only the clipboard, never the session. */
  lemma CopyOnlyTouchesClipboard(env: Env, st: SessionState, w: World)
    ensures var (st', w') := Step(env, st, Copy, w);
      st' == st && w'.disk == w.disk
  {
  }

  /** The original image is replaced only by a load. */
  lemma OriginalOnlyOnLoad(env: Env, st: SessionState, e: Event, w: World)
    requires !IsLoad(e)
    ensures Step(env, st, e, w).0.original == st.original
  {
  }

  /** There is an original exactly when there is a current image. */
  predicate Consistent(st: SessionState) {
    st.current.Some? <==> st.original.Some?
  }

  lemma StepConsistent(env: Env, st: SessionState, e: Event, w: World)
    requires Consistent(st)
    ensures Consistent(Step(env, st, e, w).0)
  {
    match e
    case SelectionEnd(end, slider) =>
      if st.selection.Some? && end.Some? && st.current.Some? && st.mode.Some? {
        var area := Span(st.selection.value, end.value);
        if area.x1 != area.x2 && area.y1 != area.y2 {
          var st' := Step(env, st, e, w).0;
          assert st'.current.Some?;
        }
      }
    case MosaicStrength(s) =>
    case _ =>
  }

  /** Consistency holds after any run of events from a consistent state, in particular from start-up. */
  lemma {:induction false} RunConsistent(env: Env, st: SessionState, events: seq<Event>, w: World)
    requires Consistent(st)
    ensures Consistent(Run(env, st, events, w).0)
    decreases |events|
  {
    if events != [] {
      StepConsistent(env, st, events[0], w);
      var (st', w') := Step(env, st, events[0], w);
      if KeepsRunning(events[0]) {
        RunConsistent(env, st', events[1..], w');
      }
    }
  }

  lemma InitialConsistent(settings: map<string, SettingValue>)
    ensures Consistent(Initial(settings)) && Initial(settings).current.None?
  {
  }

  /** Nothing after a quit event is handled. */
  lemma {:induction false} RunStopsAtQuit(env: Env, st: SessionState, before: seq<Event>, after: seq<Event>, w: World)
    requires forall k :: 0 <= k < |before| ==> KeepsRunning(before[k])
    ensures Run(env, st, before + [Exit] + after, w) == Run(env, st, before, w)
    decreases |before|
  {
    if before == [] {
      assert ([] + [Exit] + after)[0] == Exit;
      assert ([] + [Exit] + after)[1..] == after;
    } else {
      var (st', w') := Step(env, st, before[0], w);
      assert (before + [Exit] + after)[0] == before[0];
      assert (before + [Exit] + after)[1..] == before[1..] + [Exit] + after;
      RunStopsAtQuit(env, st', before[1..], after, w');
    }
  }

  /**
   * Choosing the mosaic tool, selecting a proper area on the image and
   * moving the strength slider pixelates the area twice: first with the
   * slider's value at selection time, then again with the new strength
   * over the mosaic tool's last area.
   */
  lemma MosaicThenStrength(env: Env, st: SessionState, w: World, a: Point, b: Point, slider: int, strength: int)
    requires st.current.Some?
    requires a.x != b.x && a.y != b.y
    ensures var area := Span(a, b);
      var im := st.current.value;
      var st' := Run(env, st, [ChooseMosaic, SelectionStart(Some(a)), SelectionEnd(Some(b), slider), MosaicStrength(Some(strength))], w).0;
      && st'.current == Some(Mosaic.Pixelate(env.pillow, Mosaic.Pixelate(env.pillow, im, area, slider), area, strength))
      && st'.mosaic == Mosaic.MosaicState(Some(area), strength)
      && st'.mode == Some(MosaicMode) && st'.selection == Some(a)
  {
    var area := Span(a, b);
    var s1 := st.(mode := Some(MosaicMode), selection := None);
    var s2 := s1.(selection := Some(a));
    var s3 := SelectMosaic(env, s2, a, b, slider, w);
    var s4 := ReapplyMosaic(env, s3, strength, w);
    assert Step(env, st, ChooseMosaic, w) == (s1, w);
    assert Step(env, s1, SelectionStart(Some(a)), w) == (s2, w);
    RunCons(env, st, ChooseMosaic, [SelectionStart(Some(a)), SelectionEnd(Some(b), slider), MosaicStrength(Some(strength))], w);
    RunCons(env, s1, SelectionStart(Some(a)), [SelectionEnd(Some(b), slider), MosaicStrength(Some(strength))], w);
    RunCons(env, s2, SelectionEnd(Some(b), slider), [MosaicStrength(Some(strength))], w);
    RunCons(env, s3, MosaicStrength(Some(strength)), [], w);
  }

  /** Ending a proper selection in mosaic mode pixelates the area with the slider's strength and remembers both. */
  lemma SelectMosaic(env: Env, st: SessionState, a: Point, b: Point, slider: int, w: World) returns (st': SessionState)
    requires st.current.Some? && st.mode == Some(MosaicMode) && st.selection == Some(a)
    requires a.x != b.x && a.y != b.y
    ensures Step(env, st, SelectionEnd(Some(b), slider), w) == (st', w)
    ensures st' == st.(mosaic := Mosaic.MosaicState(Some(Span(a, b)), slider),
                       current := Some(Mosaic.Pixelate(env.pillow, st.current.value, Span(a, b), slider)))
  {
    st' := ApplyMosaic(env, st, slider, Some(Span(a, b)));
  }

  /** A strength event in mosaic mode with a remembered area pixelates that area again with the new strength. */
  lemma ReapplyMosaic(env: Env, st: SessionState, strength: int, w: World) returns (st': SessionState)
    requires st.current.Some? && st.mode == Some(MosaicMode) && st.selection.Some? && st.mosaic.lastArea.Some?
    ensures Step(env, st, MosaicStrength(Some(strength)), w) == (st', w)
    ensures st' == st.(mosaic := Mosaic.MosaicState(st.mosaic.lastArea, strength),
                       current := Some(Mosaic.Pixelate(env.pillow, st.current.value, st.mosaic.lastArea.value, strength)))
  {
    st' := ApplyMosaic(env, st, strength, None);
  }

  /** The loop handles the first event and, if it keeps running, the rest from there. */
  lemma RunCons(env: Env, st: SessionState, e: Event, rest: seq<Event>, w: World)
    requires KeepsRunning(e)
    ensures Run(env, st, [e] + rest, w) == Run(env, Step(env, st, e, w).0, rest, Step(env, st, e, w).1)
  {
    assert ([e] + rest)[0] == e;
    assert ([e] + rest)[1..] == rest;
  }

  /** After a new image is loaded, a strength event does nothing: loading cleared the mode and the selection. */
  lemma LoadThenStrength(env: Env, st: SessionState, w: World, path: string, strength: Option<int>)
    requires path != "" && env.io.LoadFromFile(env.pillow, w.disk, path).Some?
    ensures var st1 := Step(env, st, Open(Some(path)), w).0;
      Step(env, st1, MosaicStrength(strength), w) == (st1, w)
  {
  }

  /**
   * On Windows with every clipboard library present, copying the image and
   * pasting it back with the corrected clipboard assembly loads an image of
   * the same size with the colours of the image converted to RGB.
   */
  lemma CopyThenPaste(env: Env, st: SessionState, w: World)
    requires env.pillow.ConvertContract() && env.pillow.BmpContract() && env.platform == Windows
    requires env.io.clipboardAvailable && env.io.cv2Available && w.clipboard.win32Installed && !w.clipboard.locked
    requires st.current.Some? && BmpFileSize(env.pillow.convert(st.current.value, RGB)) < Limit
    ensures var w1 := Step(env, st, Copy, w).1;
      var st2 := Step(env, st, Paste, w1).0;
      && st2.current.Some? && st2.original == st2.current && st2.mode.None?
      && SameColours(st2.current.value, env.pillow.convert(st.current.value, RGB))
  {
    CopyPasteRoundTrip(env.io, env.pillow, w.clipboard, st.current.value);
    var w1 := Step(env, st, Copy, w).1;
    assert w1 == w.(clipboard := env.io.CopyToClipboard(env.pillow, Windows, w.clipboard, st.current.value).1);
  }

  /**
   * With the clipboard assembly as written, pasting right after a Windows
   * copy changes nothing: the BMP reader refuses the file it is given, so
   * the image just copied never comes back.
   */
  lemma CopyThenPasteAsWritten(env: Env, st: SessionState, w: World)
    requires env.pillow.ConvertContract() && env.pillow.BmpContract() && env.pillow.BmpHeaderCheck()
    requires env.platform == Windows && env.io.clipboardAvailable && w.clipboard.win32Installed && !w.clipboard.locked
    requires st.current.Some? && BmpFileSize(env.pillow.convert(st.current.value, RGB)) < Limit
    ensures var w1 := Step(env, st, Copy, w).1;
      LoadImageFromClipboardAsWritten(env, st, w1) == st
  {
    assert Step(env, st, Copy, w) == (st, CopyImage(env, st, w));
    var cb' := env.io.CopyToClipboard(env.pillow, Windows, w.clipboard, st.current.value).1;
    assert CopyImage(env, st, w) == w.(clipboard := cb');
    CopyPasteAsWrittenFails(env.io, env.pillow, w.clipboard, st.current.value);
    assert env.io.LoadFromClipboardAsWritten(env.pillow, cb').None?;
  }
}
