# pygame_paint core, modelled in Dafny

This project models the pixel-editing core of pygame_paint, a small paint
program built on pygame and pygame_gui. It covers five parts:

- **Brush line rasterizer**: the two-octant Bresenham `_plot_line`.
- **Brush tool**: the flag-driven stroke session (`process_event` and
  `update`), the stamp rectangles laid along each segment of the pointer's
  path, and the integer geometry of the anti-aliased stamp.
- **Fill tool**: the span-based scanline flood fill into a marker surface,
  eligibility by the cheap squared RGB distance, the click that pushes a
  whole-image undo record, and the three-frame fill lifecycle.
- **Undo/redo history**: two stacks of (rectangle, pixels) records, the
  replay step shared by `_try_undo` and `_try_redo`, active-canvas
  tracking, and Ctrl+Z / Ctrl+Shift+Z dispatch.
- **Colour dropper and new-canvas dialog**: the dropper's click-then-sample
  state machine, and the dialog's digit-only size fields.

Surfaces are immutable grids (`Pixels.Image`, a `seq<seq<Color>>`), indexed `g[y][x]`. Every
operation is a pure function or a method over values. Each tool's state
is a datatype. A `Valid` predicate on each tool states the flag invariant
that holds between frames, and each `Update` is proved to preserve it.
pygame's `blit` is a clipped rectangle copy (`History.Crop`,
`History.Paste`). The pointer position, the canvas position and
"the pointer is over the canvas" are parameters.

Files:

| file | module |
|---|---|
| wrappers.dfy | `Wrappers`: `Option`, `Result` |
| pixels.dfy | `Pixels`: colours, points, rectangles, grid helpers |
| input.dfy | `Input`: the mouse events the tools inspect |
| options.dfy | `Options`: a tool's option table and `set_option` |
| line.dfy | `Line`: `_plot_line`, `_plot_line_low`, `_plot_line_high` |
| brush.dfy | `Brush`: the brush tool |
| scanline_fill.dfy | `ScanlineFill`: `_rect_fill_start`, `_rect_fill`, `_rect_fill_core`, `_test_fill_pixel`, the cheap distance |
| history.dfy | `History`: undo records, replay, the capped push |
| fill_tool.dfy | `FillTool`: the fill tool's events, options and frames |
| menu_bar.dfy | `MenuBar`: the active canvas, undo/redo dispatch |
| dropper.dfy | `Dropper`: the colour dropper |
| new_canvas_dialog.dfy | `NewCanvasDialog`: the new-canvas size fields |

Two behaviours of the code a reader may not expect; the model follows the
code in both:

- `_plot_line(p, p)` is the empty set, not `{p}`. The steep branch is
  taken, and `range(y0, y0)` is empty.
- The fill's two probe loops differ from the scan-line algorithm the code
  transcribes (see "## Findings"). The fill runs the loops as written
  (`BelowScan`, `AboveScan`). The corrected below probe
  (`CorrectedBelowScan`) is kept beside them, with its coverage property
  proved.

## Model

| member | source | states |
|---|---|---|
| Line.Walk | tools/brush_tool.py:161-180 | the shared loop of both octant helpers yields one point per major-axis step from the start, and its major coordinates are consecutive |
| Line.WalkStaysNear | tools/brush_tool.py:169-178 | the error-term invariant `2·dx·k <= 2·dy·i + dx` after i major and k minor steps bounds the minor steps by dy, so every minor coordinate stays between the two endpoints' |
| Line.WalkSteps | tools/brush_tool.py:173-178 | successive minor coordinates differ by at most 1 |
| Line.LowRun | tools/brush_tool.py:161-180 | `_plot_line_low` with ordered endpoints emits `x1 - x0` points starting at (x0, y0), with consecutive x, y between y0 and y1, and y steps of at most 1 |
| Line.HighIsSwappedLow | tools/brush_tool.py:183-202 | `_plot_line_high` is `_plot_line_low` with x and y exchanged |
| Line.DistinctElements | tools/brush_tool.py:172-174 | pairwise-different points form a set of the same size, so the set has as many points as the loop has iterations |
| Line.PlotLineSymmetric | tools/brush_tool.py:143-158 | `_plot_line(p, q)` and `_plot_line(q, p)` add the same points in the same order, so give the same set; both branches start from the endpoint with the smaller major coordinate |
| Line.PlotLineOfOnePointIsEmpty | tools/brush_tool.py:148-157 | equal endpoints give the empty set |
| Line.ShallowLine | tools/brush_tool.py:148-152 | shallow case: exactly `abs(x1 - x0)` points, one per x in `[min x, max x)`; the smaller-x endpoint is in, the other is out; y stays between the endpoints' y values and moves at most 1 per point |
| Line.SteepLine | tools/brush_tool.py:153-157 | steep case: the same with x and y exchanged, one point per y in `[min y, max y)` |
| Line.PlotLineConnected | tools/brush_tool.py:169-200 | successive points in iteration order are 8-adjacent |
| Line.Step | tools/brush_tool.py:164-167 | the sign step is ±1, and multiplying by it gives the absolute value |
| Brush.Init | tools/brush_tool.py:6-15 | a new brush is opaque white, size 16, idle and valid |
| Brush.StampRect | tools/brush_tool.py:58-59 | a stamp is a square of side `brush_size + 8` centred on its point |
| Brush.ProcessEvent | tools/brush_tool.py:25-39 | the event is consumed exactly by a left press over the canvas while not painting, which requests the stroke start; `stop_painting` becomes set only by a left release while painting; pending requests are kept and nothing else changes |
| Brush.Update | tools/brush_tool.py:41-95 | afterwards both request flags are clear and the centre is the new pointer position; a stop frame closes the stroke and hands it over; a start frame stamps the new position; every point of the segment from the old centre gets a stamp, in canvas coordinates; earlier stamps are kept; conversely every stamp the frame adds is the click stamp of a start frame or the stamp of a segment point, and no stamp stays queued; an idle frame changes only the centre; size, colour and opacity are kept in every frame; validity is preserved |
| Brush.StrokeCoversSegment | tools/brush_tool.py:74-87 | the painting block blits every queued rectangle and a stamp on every rasterized point, shifted into canvas coordinates; it keeps the stroke's earlier stamps, adds nothing else, and empties the queue |
| Brush.ClickWithoutMovement | tools/brush_tool.py:44-87 | a click with no pointer movement opens a stroke holding exactly one stamp centred on the click |
| Brush.SetColour | tools/brush_tool.py:97-99 | replaces the colour only and keeps the state valid |
| Brush.SetOpacity | tools/brush_tool.py:101-103 | replaces the opacity only and keeps the state valid |
| Brush.SetSize | tools/brush_tool.py:105-107 | replaces the size only; later stamps have side `size + 8` |
| Brush.RedrawBrush | tools/brush_tool.py:109-136 | stamp side `brush_size + 8`; the supersampled side is 4 times that, with the discs centred in it; three discs with alphas 85, 175, 255 and radii `r + 2`, `r`, `r - 2` where `2r = 4 * brush_size`; radius falls as alpha rises, and every disc's radius is less than its centre coordinate |
| ScanlineFill.CheapDistance | tools/fill_tool.py:205-209 | the distance never exceeds 195075 (3·255²), and is 0 exactly when the RGB channels are equal |
| ScanlineFill.CheapDistanceSymmetric | tools/fill_tool.py:205-209 | the distance is symmetric |
| ScanlineFill.CheapDistanceIgnoresAlpha | tools/fill_tool.py:205-209 | the distance ignores alpha |
| ScanlineFill.SeedColourEligible | tools/fill_tool.py:185-190 | a pixel of exactly the seed colour passes the distance test exactly when the effective threshold is positive |
| ScanlineFill.NonPositiveThresholdFillsNothing | tools/fill_tool.py:185-190 | with an effective threshold of 0 or less, no pixel is eligible, so no sound fill changes anything |
| ScanlineFill.GrowsTransitive | tools/fill_tool.py:144-163 | two soundness-preserving fill steps compose to one |
| ScanlineFill.Write | tools/fill_tool.py:144-146 | writing the fill value where `_test_fill_pixel` passed changes only that cell and removes exactly one blank marker cell, which is the termination measure |
| ScanlineFill.GrowsCount | tools/fill_tool.py:144-163 | a sound fill step never increases the number of blank marker cells |
| ScanlineFill.BlankCountWrite | tools/fill_tool.py:146 | turning one blank cell into a non-blank value lowers the blank count by exactly one |
| ScanlineFill.ScanBetween | tools/fill_tool.py:167-178 | the corrected probe loops visit exactly the columns strictly between the cell where the row scan stopped and the far end, in order |
| ScanlineFill.AsWrittenScanRange | tools/fill_tool.py:169-172 | the as-written probe loop visits exactly `[start, stop - 1)`: the blocked cell and never the last column |
| ScanlineFill.AsWrittenScanSkipsLastColumn | tools/fill_tool.py:169-178 | whenever the probe range is not empty, the as-written loop leaves out column `stop - 1`, which the corrected range contains |
| ScanlineFill.AsWrittenScanMissesColumn | tools/fill_tool.py:175-178 | a concrete scan from 3 to 5: the as-written loop probes only column 3 and skips 4; the corrected loop probes 4 |
| ScanlineFill.RectFill | tools/fill_tool.py:121-131 | the corner search moves only through passing cells and ends, then fills from the corner; only blank, eligible marker cells are changed, and only to the fill value |
| ScanlineFill.LeftScan | tools/fill_tool.py:144-150 | extends the row to the left, starting a corner fill above each new cell; every cell from the returned left end up to the start holds the fill; the scan stops at column 0 or in front of a failing cell; only blank, eligible cells change |
| ScanlineFill.RightScan | tools/fill_tool.py:162-165 | extends the row to the right up to the first failing cell or the surface's width; fills only passing cells |
| ScanlineFill.ProbeBelow | tools/fill_tool.py:169-172 | probes a row at the given columns, starting a core fill at each passing cell; afterwards every probed cell fails the test (filled, or never eligible); soundness is kept |
| ScanlineFill.ProbeAbove | tools/fill_tool.py:175-178 | probes the row above at the given columns, starting a corner fill at each passing cell; soundness is kept |
| ScanlineFill.BelowScan | tools/fill_tool.py:167-172 | the as-written probe of the rest of the previous row's span on a shorter row: every column from the blocked cell up to `end - 2` ends up failing the test; soundness is kept |
| ScanlineFill.CorrectedBelowScan | tools/fill_tool.py:167-172 | the intended probe: every column strictly between the blocked cell and `end`, `end - 1` included, ends up failing the test; soundness is kept |
| ScanlineFill.AboveScan | tools/fill_tool.py:173-178 | the as-written probe of the row above the new part of a longer row, columns `x + last_row_length` to `sx - 2`; soundness is kept |
| ScanlineFill.RectFillCore | tools/fill_tool.py:133-183 | the row-by-row span fill, with the as-written probe loops, terminates with every index in bounds; every marker cell it changes was blank, lies on an eligible pixel and now holds the fill value; its start cell ends up failing the test |
| ScanlineFill.RectFillStart | tools/fill_tool.py:109-119 | runs the as-written fill; the blank value is the marker's (0, 0) cell; every cell of the result kept its value, or was blank on a pixel strictly closer than the threshold to the seed colour and now holds the fill value; a threshold of 0 or less leaves the marker unchanged |
| History.NewCanvas | ui/ui_editable_canvas.py:37-38 | a new canvas starts with both stacks empty |
| History.Crop | menu_bar_event_handler.py:165-168 | the saved surface has the rectangle's size and holds the image's pixels under it; parts outside the image stay transparent |
| History.Paste | menu_bar_event_handler.py:171-172 | the pasted image keeps its shape; cells under the record take the record's pixels, and every other cell is unchanged |
| History.Replay | menu_bar_event_handler.py:160-186 | an empty source stack changes nothing; otherwise one record moves over with the same rectangle, holding the image's current pixels there; the popped pixels are written back; nothing outside the rectangle changes |
| History.Undo | menu_bar_event_handler.py:160-172 | pops the undo stack and pushes exactly one redo record; total history size and canvas validity are preserved |
| History.Redo | menu_bar_event_handler.py:174-186 | the mirror image of undo |
| History.ReplayKeepsValid | menu_bar_event_handler.py:163-172 | after a replay, every record on both stacks still fits the image |
| History.CropOfPaste | menu_bar_event_handler.py:165-172 | cropping the rectangle just pasted gives back the pasted pixels |
| History.PasteOfCrop | menu_bar_event_handler.py:165-186 | pasting back what was cropped from an image restores the image |
| History.ReplayTwice | menu_bar_event_handler.py:160-186 | replaying there and back restores the image and both stacks exactly |
| History.UndoThenRedo | menu_bar_event_handler.py:160-186 | undo followed by redo restores the canvas bit for bit, including the top undo record |
| History.RedoThenUndo | menu_bar_event_handler.py:160-186 | redo followed by undo restores the canvas bit for bit |
| History.UndoFrame | menu_bar_event_handler.py:171-172 | undo leaves every pixel outside the popped rectangle unchanged, and puts back exactly the record's pixels inside it |
| History.RedoFrame | menu_bar_event_handler.py:185-186 | the same for redo |
| History.Newest | tools/fill_tool.py:49-50 | at most 25 records are kept |
| History.PushRecord | tools/fill_tool.py:47-50 | the record is appended on top and the redo stack cleared; once the stack exceeds 25 the oldest entry goes; the result is the newest 25 |
| History.NewestOfNewest | tools/fill_tool.py:49-50 | truncating to the newest 25 and then appending and truncating again is the same as truncating once |
| History.PushAllKeepsNewest | tools/fill_tool.py:45-50 | however many clicks push records, the undo stack is the newest 25 of all records in push order, and redo is empty |
| FillTool.Init | tools/fill_tool.py:8-14 | the option table holds exactly the palette, opacity and threshold keys, with the palette colour forced opaque |
| FillTool.SetOption | tools/fill_tool.py:105-107 | only keys already present change; any other key leaves the tool unchanged |
| FillTool.ImageRect | tools/fill_tool.py:47 | the whole-image rectangle lies inside the image |
| FillTool.ProcessCanvasEvent | tools/fill_tool.py:35-52 | consumed exactly by a left press over the canvas while not filling; it then requests the fill, pushes one record with the whole image and its rectangle, clears redo and drops the oldest record past 25; the depth bound and canvas validity are preserved |
| FillTool.Composite | tools/fill_tool.py:83-86 | where the marker is still transparent the copy of the canvas shows through; elsewhere the marker colour covers it |
| FillTool.Update | tools/fill_tool.py:57-103 | a frame with no pending request changes nothing; the start frame seeds from the pointer in canvas coordinates, runs the as-written fill once into a fresh marker (soundly) and requests the stop; the stop frame clears `filling`, commits the composite and releases both temporary surfaces; errors arise only in the start frame; every successful frame keeps the option table |
| FillTool.NothingFilledShowsOriginal | tools/fill_tool.py:109-119 | with a threshold of 0 or less the committed image is the image the fill started from |
| MenuBar.TryUndo | menu_bar_event_handler.py:160-172 | nothing happens without an active canvas or with an empty undo stack; otherwise the active canvas is undone and every other canvas is untouched |
| MenuBar.TryRedo | menu_bar_event_handler.py:174-186 | the mirror image on the redo stack |
| MenuBar.TrackActive | menu_bar_event_handler.py:26-32 | a canvas window moved to front becomes active; closing the active window clears it; nothing else changes it |
| MenuBar.ProcessEvent | menu_bar_event_handler.py:25-158 | the active canvas changes only through front/close events (:26-32); the Undo item and Ctrl+Z undo, the Redo item and Ctrl+Shift+Z redo (:87-95, :153-158); every other event, including other buttons, non-canvas windows and other keys, leaves the workspace unchanged |
| MenuBar.ProcessEventKeepsValid | menu_bar_event_handler.py:87-95 | handling any event keeps every canvas's history well formed |
| MenuBar.UndoKeyThenRedoKey | menu_bar_event_handler.py:153-158 | Ctrl+Z then Ctrl+Shift+Z on a canvas with something to undo gives back the workspace exactly |
| MenuBar.HistorySizeConserved | menu_bar_event_handler.py:163-183 | no event changes any canvas's total number of history records |
| Dropper.Init | tools/dropper_tool.py:6-11 | a new dropper has an empty option table and nothing pending |
| Dropper.ProcessEvent | tools/dropper_tool.py:13-24 | consumed exactly by a left press over the canvas, which records the pointer position and arms the sample; anything else changes nothing |
| Dropper.Update | tools/dropper_tool.py:26-39 | an unarmed frame changes nothing; an armed one disarms, translates the click into canvas coordinates and samples the surface pixel there |
| Dropper.SetOption | tools/dropper_tool.py:41-43 | only keys already present change |
| Dropper.ClickThenFrameSamplesUnderPointer | tools/dropper_tool.py:13-39 | a click over the canvas followed by a frame samples exactly the pixel under the click |
| Dropper.NewDropperIgnoresEveryOption | tools/dropper_tool.py:8 | the table starts empty, so `set_option` ignores every key |
| Options.SetOption | tools/fill_tool.py:105-107 | the key set is unchanged; a present key takes the new value; every other entry is unchanged |
| NewCanvasDialog.ParseInt | ui/ui_new_canvas_dialog.py:95-98 | the text parses exactly when it is a non-empty run of digits |
| NewCanvasDialog.ToDecimal | ui/ui_new_canvas_dialog.py:45 | `str(n)` is a non-empty run of digits |
| NewCanvasDialog.ParseToDecimal | ui/ui_new_canvas_dialog.py:99-102 | parsing `str(n)` gives back `n`, so the texts the dialog writes always parse to the intended value |
| NewCanvasDialog.Init | ui/ui_new_canvas_dialog.py:33-54 | the dialog opens at 640 by 400, white, with each side capped at 4096 |
| NewCanvasDialog.Finish | ui/ui_new_canvas_dialog.py:93-112 | text-finished: unparseable text becomes "0", a value above the maximum becomes the maximum, a value within it is kept; the other field is untouched |
| NewCanvasDialog.ProcessEvent | ui/ui_new_canvas_dialog.py:76-120 | Cancel closes with no output; OK asks for a canvas of `min(int(text), max)` on each side, never above the maximum; text-finished is exactly `Finish` on that field (bad text becomes "0", a value above the maximum becomes the maximum, a value within it is kept); text-changed leaves the field parseable, replacing bad text by "0", and keeps the other field, the colour and whether the dialog is open; validity is preserved |
| NewCanvasDialog.EventsKeepDialogValid | ui/ui_new_canvas_dialog.py:76-120 | over any sequence of events both fields keep parsing, and no requested side exceeds 4096 |

## Left out

- Alpha blending is left out: `BLEND_RGBA_MULT` opacity compositing, and the alpha of blits. A blit is a rectangle copy with clipping. Opacity is stored, but it does not affect pixels.
- FillTool.Composite: treats any non-transparent marker cell as opaque. The source scales the marker's alpha by the opacity before blitting it over the copy.
- History.Crop: ignores `SRCALPHA` blending. Undo and redo are exact only because records are copied, not blended.
- `pygame.draw.circle` and `pygame.transform.smoothscale` are library drawing. `Brush.RedrawBrush` gives the integer geometry only, and the brush image's pixels are not modelled.
- `calc_distance_between_colours` is left out because it uses floats and a square root, and the fill never calls it.
- FillTool.EffectiveThreshold: `threshold * 195075` is an exact real product. Float rounding is left out.
- `pygame.mouse.get_pos()`, `canvas.hover_point` and the canvas position are parameters of the operations.
- Event posting is left out: the dropper's colour-changed event and the dialog's create-canvas event. Both are returned as values (`Dropper.Sample`, `NewCanvasDialog.Outcome`).
- File open/save, message windows, the menu bar's other items, window layout, the tool bar, the main loop and the canvas window classes are presentation glue.
- The fill tool's `process_event` is left out: it always returns False.
- Which `process_event` the older canvas class calls is left out. Each tool is modelled through its own entry point.
- `UndoRecord` is defined in tools/undo_record.py, which is not part of this model. It is modelled as a plain pair of pixels and a rectangle.
- The brush tool pushes no undo record, so the model pushes none.
- Line.PlotLine: the source returns a Python set whose iteration order is hash order. The model keeps the loop's order as `PlotLineOrder`, and the stamps are laid in that order. Where stamps overlap, only the set of stamps is stated, not the order they are blitted in.
- FillTool.Update: a palette colour with alpha 0 makes the fill value equal the blank marker value. The source then writes nothing, and on some region shapes recurses without end; the model returns `Err(TransparentPalette)`. A seed outside the surface (`get_at` raises) and a missing or wrongly typed option are also errors.
- ScanlineFill.RectFillStart: only soundness, bounds and termination are stated. Completeness (every reachable eligible pixel is filled) is not stated.
- ScanlineFill.RectFillStart: recursion depth is unbounded in the model. The source recurses once per nested span and raises RecursionError past Python's limit (1000 frames by default) on large regions; FillTool.Update therefore always finishes here.
- ScanlineFill.AboveScan: states soundness only. The corner fill it starts may begin at another cell, so the model does not promise that each probed cell ends up filled. The corrected range of this loop has no member of its own.
- Dropper.Update: `get_at` raises IndexError for a click translated outside the surface; the model returns `OutOfBounds` instead, and posts no event.
- The fill's pixel array is a value grid. Writes to the marker and reads of the canvas are kept apart, so the fill never writes the canvas.
- NewCanvasDialog.ParseInt: covers only digit strings. Python's `int` also accepts signs, surrounding whitespace and underscores, which the digits-only field cannot hold. The field's 4-character limit is left out.
- NewCanvasDialog.ProcessEvent: OK with a field that does not parse raises ValueError in the source. The model reports `ParseFailure` and leaves the dialog open. Text-changed is modelled for the dialog's two fields only.

## Findings

| source | as written | input that shows it | evidently intended | confidence | as-written member | corrected member |
|---|---|---|---|---|---|---|
| tools/fill_tool.py:167-178 | `while sx + 1 < end: test(sx); sx += 1`. The `ux` loop is the same. This probes the cell where the row scan stopped, which is known not to pass, and never probes column `end - 1` (`sx - 1` for the loop above). | A 5 by 2 surface, all one colour except a different pixel at (3, 1), seed (0, 0). Row 0 fills columns 0-4. Row 1 fills 0-2 and stops at 3. The loop then probes only column 3, so (4, 1) stays unfilled although it touches (4, 0). | The scan-line fill this transcribes advances first (`++sx < end`), so it probes the columns strictly between the blocked cell and `end`. | not executed | ScanlineFill.BelowScan | ScanlineFill.CorrectedBelowScan |
