/** The fill tool: a click over the canvas records the whole image for
    undo and requests a fill; the next frame runs the flood fill once into
    a marker surface and asks to stop; the frame after that puts the
    result on the canvas and releases the temporary surfaces. */
module FillTool {
  import opened Wrappers
  import opened Pixels
  import opened Input
  import Options
  import opened ScanlineFill
  import opened History

  const PaletteKey := "palette_colour"
  const OpacityKey := "opacity"
  const ThresholdKey := "threshold"

  /** The largest cheap distance; the threshold option is a fraction of it. */
  const DistanceScale: real := 195075.0

  /** The tool's state. `prePainting` and `marker` stand for the copy of the
      canvas taken when the fill starts and the marker surface the fill
      writes; both exist only while filling. */
  datatype FillTool = FillTool(
    options: map<string, Options.OptionValue>,
    startFillPosition: Option<Point>,
    startFillColour: Option<Color>,
    startFilling: bool,
    stopFilling: bool,
    filling: bool,
    prePainting: Option<Image>,
    marker: Option<Image>)

  /** The state between frames: the temporary surfaces exist exactly while
      filling, a filling tool always has its stop requested, and a fill is
      only requested while idle. */
  predicate Valid(t: FillTool) {
    && (t.filling <==> t.marker.Some?)
    && (t.filling <==> t.prePainting.Some?)
    && (t.filling <==> t.stopFilling)
    && (t.startFilling ==> !t.filling)
    && (t.marker.Some? ==> SameShape(t.marker.value, t.prePainting.value))
  }

  /** A new tool: the palette colour is stored fully opaque whatever
      alpha it came with. */
  function Init(palette: Color, opacity: int, threshold: real): (t: FillTool)
    ensures Valid(t)
    ensures t.options.Keys == {PaletteKey, OpacityKey, ThresholdKey}
    ensures t.options[PaletteKey].ColourValue? && t.options[PaletteKey].colour.a == 255
    ensures t.options[PaletteKey].colour.(a := palette.a) == palette
    ensures !t.startFilling && !t.stopFilling && !t.filling
  {
    FillTool(map[PaletteKey := Options.ColourValue(palette.(a := 255)),
                 OpacityKey := Options.IntValue(opacity),
                 ThresholdKey := Options.RealValue(threshold)],
             None, None, false, false, false, None, None)
  }

  /** `set_option`: only the three keys the tool was built with can change. */
  function SetOption(t: FillTool, key: string, value: Options.OptionValue): (r: FillTool)
    ensures r.options.Keys == t.options.Keys
    ensures key in t.options ==> r.options[key] == value
    ensures key !in t.options ==> r == t
    ensures r == t.(options := r.options)
  {
    t.(options := Options.SetOption(t.options, key, value))
  }

  /** The rectangle of the whole image (`surface.get_rect()`). */
  function ImageRect(img: Image): (r: Rect)
    ensures Rectangular(img) ==> RectInside(r, Width(img), |img|)
  {
    Rect(0, 0, Width(img), |img|)
  }

  datatype CanvasEventResult = CanvasEventResult(tool: FillTool, canvas: Canvas, consumed: bool)

  /** `process_canvas_event`: a left press over the canvas while not
      filling requests a fill, is consumed, and pushes a record of the whole
      image onto the canvas's undo stack, clearing the redo stack and
      dropping the oldest record beyond 25. */
  function ProcessCanvasEvent(t: FillTool, c: Canvas, e: MouseEvent, insideCanvas: bool): (r: CanvasEventResult)
    ensures r.consumed <==> IsLeftDown(e) && insideCanvas && !t.filling
    ensures !r.consumed ==> r.tool == t && r.canvas == c
    ensures r.consumed ==> r.tool == t.(startFilling := true)
    ensures r.consumed ==> r.canvas.image == c.image && r.canvas.redoStack == []
    ensures r.consumed ==> |r.canvas.undoStack| > 0 && Top(r.canvas.undoStack) == UndoRecord(c.image, ImageRect(c.image))
    ensures r.consumed && |c.undoStack| < MaxUndoDepth ==> r.canvas.undoStack == c.undoStack + [Top(r.canvas.undoStack)]
    ensures r.consumed && |c.undoStack| == MaxUndoDepth ==> r.canvas.undoStack == c.undoStack[1..] + [Top(r.canvas.undoStack)]
    ensures |c.undoStack| <= MaxUndoDepth ==> |r.canvas.undoStack| <= MaxUndoDepth
    ensures Valid(t) ==> Valid(r.tool)
    ensures ValidCanvas(c) ==> ValidCanvas(r.canvas)
  {
    if IsLeftDown(e) && insideCanvas && !t.filling then
      var r := CanvasEventResult(t.(startFilling := true),
                                 PushRecord(c, UndoRecord(c.image, ImageRect(c.image))),
                                 true);
      assert ValidCanvas(c) ==> Fits(UndoRecord(c.image, ImageRect(c.image)), c.image);
      r
    else CanvasEventResult(t, c, false)
  }

  /** Why a frame could not complete. */
  datatype FillError =
    | SeedOutOfBounds      // the click lands outside the canvas surface
    | BadOption            // an option is missing or has the wrong kind of value
    | TransparentPalette   // the fill value equals the blank value

  /** The tool after a frame, the canvas surface as the frame leaves it,
      and whether the frame handed the surface to the canvas as its new
      image. */
  datatype FillFrame = FillFrame(tool: FillTool, surface: Image, committed: bool)

  function PaletteOf(options: map<string, Options.OptionValue>): Option<Color> {
    if PaletteKey in options && options[PaletteKey].ColourValue? then Some(options[PaletteKey].colour) else None
  }

  /** The opacity must be a channel value for the opacity surface to exist. */
  predicate OpacityOk(options: map<string, Options.OptionValue>) {
    OpacityKey in options && options[OpacityKey].IntValue? && 0 <= options[OpacityKey].n <= 255
  }

  /** `threshold * 195075`, the bound the cheap distance is compared with. */
  function EffectiveThreshold(options: map<string, Options.OptionValue>): Option<real> {
    if ThresholdKey !in options then None
    else match options[ThresholdKey]
      case RealValue(x) => Some(x * DistanceScale)
      case IntValue(n) => Some(n as real * DistanceScale)
      case ColourValue(_) => None
  }

  /** The marker surface's initial value: the palette colour, fully transparent. */
  function Blank(palette: Color): Color {
    palette.(a := 0)
  }

  /** The marker drawn over the copy of the canvas: where the marker is
      still transparent the copy shows through, elsewhere the marker's
      colour covers it. */
  function Composite(pre: Image, marker: Image): (out: Image)
    requires SameShape(marker, pre)
    ensures SameShape(out, pre)
    ensures forall j, i :: InGrid(pre, i, j) && marker[j][i].a == 0 ==> out[j][i] == pre[j][i]
    ensures forall j, i :: InGrid(pre, i, j) && marker[j][i].a != 0 ==> out[j][i] == marker[j][i]
  {
    seq(|pre|, j requires 0 <= j < |pre| =>
      seq(|pre[j]|, i requires 0 <= i < |pre[j]| => if marker[j][i].a == 0 then pre[j][i] else marker[j][i]))
  }

  /** Every marker cell is still blank, or holds the palette colour and
      lies on a canvas pixel closer than the threshold to the seed colour. */
  predicate SoundFill(marker: Image, canvas: Image, palette: Color, seedColour: Color, threshold: real)
    requires SameShape(marker, canvas)
  {
    forall j, i :: 0 <= j < |marker| && 0 <= i < |marker[j]| ==>
      marker[j][i] == Blank(palette) ||
      (marker[j][i] == palette && (CheapDistance(canvas[j][i], seedColour) as real) < threshold)
  }

  /** `update`: the start, stop and fill blocks in source order. The
      pointer position and the canvas's position on screen are passed in. */
  method Update(t: FillTool, mouse: Point, canvasPosition: Point, surface: Image)
    returns (r: Result<FillFrame, FillError>)
    requires Valid(t) && Rectangular(surface)
    requires t.prePainting.Some? ==> SameShape(t.prePainting.value, surface)
    ensures !t.startFilling && !t.stopFilling ==> r == Ok(FillFrame(t, surface, false))
    ensures r.Err? ==> t.startFilling
    ensures t.startFilling && !InGrid(surface, mouse.x - canvasPosition.x, mouse.y - canvasPosition.y) ==>
              r == Err(SeedOutOfBounds)
    ensures t.startFilling && InGrid(surface, mouse.x - canvasPosition.x, mouse.y - canvasPosition.y) &&
            (PaletteOf(t.options).None? || !OpacityOk(t.options) || EffectiveThreshold(t.options).None?) ==>
              r == Err(BadOption)
    ensures t.startFilling && PaletteOf(t.options).Some? && PaletteOf(t.options).value.a == 0 ==> r.Err?
    ensures r.Ok? ==> Valid(r.value.tool) && !r.value.tool.startFilling
    ensures r.Ok? ==> SameShape(r.value.surface, surface)
    ensures r.Ok? ==> r.value.tool.options == t.options
    ensures t.stopFilling ==>
              r.Ok? && !r.value.tool.filling && !r.value.tool.stopFilling &&
              r.value.tool.marker.None? && r.value.tool.prePainting.None? && r.value.committed &&
              r.value.surface == Composite(t.prePainting.value, t.marker.value)
    ensures r.Ok? && t.startFilling ==>
              && r.value.tool.filling && r.value.tool.stopFilling && !r.value.committed
              && r.value.tool.prePainting == Some(surface)
              && r.value.tool.startFillPosition == Some(mouse.RelativeTo(canvasPosition))
              && r.value.tool.startFillColour == Some(surface[mouse.y - canvasPosition.y][mouse.x - canvasPosition.x])
              && PaletteOf(t.options).Some? && EffectiveThreshold(t.options).Some?
              && SoundFill(r.value.tool.marker.value, surface, PaletteOf(t.options).value,
                           r.value.tool.startFillColour.value, EffectiveThreshold(t.options).value)
              && r.value.surface == Composite(surface, r.value.tool.marker.value)
  {
    if t.stopFilling {
      // A valid tool with its stop requested is filling and holds both surfaces.
      var out := Composite(t.prePainting.value, t.marker.value);
      r := Ok(FillFrame(t.(stopFilling := false, filling := false, prePainting := None, marker := None), out, true));
      return;
    }
    if !t.startFilling {
      r := Ok(FillFrame(t, surface, false));
      return;
    }
    var seed := mouse.RelativeTo(canvasPosition);
    if !InGrid(surface, seed.x, seed.y) {
      r := Err(SeedOutOfBounds);
      return;
    }
    var palette := PaletteOf(t.options);
    var threshold := EffectiveThreshold(t.options);
    if palette.None? || !OpacityOk(t.options) || threshold.None? {
      r := Err(BadOption);
      return;
    }
    var seedColour := surface[seed.y][seed.x];
    var width, height := Width(surface), |surface|;
    var blankMarker := Filled(width, height, Blank(palette.value));
    if palette.value == Blank(palette.value) {
      r := Err(TransparentPalette);
      return;
    }
    var marker := RectFillStart(surface, blankMarker, width, height, seed.x, seed.y,
                                seedColour, threshold.value, palette.value);
    forall j, i | InGrid(marker, i, j)
      ensures marker[j][i] == Blank(palette.value) ||
              (marker[j][i] == palette.value && (CheapDistance(surface[j][i], seedColour) as real) < threshold.value)
    {
      assert blankMarker[j][i] == Blank(palette.value);
    }
    var tool := t.(startFilling := false, startFillPosition := Some(seed), startFillColour := Some(seedColour),
                   prePainting := Some(surface), marker := Some(marker), filling := true, stopFilling := true);
    r := Ok(FillFrame(tool, Composite(surface, marker), false));
  }

  /** With a threshold of zero or less the fill frame leaves the marker
      blank, so the committed image equals the image the fill started from. */
  lemma NothingFilledShowsOriginal(pre: Image, marker: Image, palette: Color, seedColour: Color, threshold: real)
    requires Rectangular(pre) && SameShape(marker, pre)
    requires SoundFill(marker, pre, palette, seedColour, threshold) && threshold <= 0.0
    ensures Composite(pre, marker) == pre
  {
    var out := Composite(pre, marker);
    forall j, i | InGrid(out, i, j) ensures out[j][i] == pre[j][i] {
      assert InGrid(marker, i, j);
    }
    GridExtensionality(out, pre);
  }
}
