/** The colour dropper: a click over the canvas arms it, and the next frame
    samples the canvas pixel under the click. */
module Dropper {
  import opened Wrappers
  import opened Pixels
  import opened Input
  import Options

  /** `options` is the tool's option table; `startDropperPosition` is the
      click position, in screen coordinates until the sampling frame turns
      it into canvas coordinates. */
  datatype DropperTool = DropperTool(
    options: map<string, Options.OptionValue>,
    startDropperPosition: Option<Point>,
    timeToGrabColour: bool)

  /** A sample is only pending once a click position is known. */
  predicate Valid(t: DropperTool) {
    t.timeToGrabColour ==> t.startDropperPosition.Some?
  }

  /** A new dropper: no options, nothing pending. */
  function Init(): (t: DropperTool)
    ensures Valid(t) && t.options == map[] && !t.timeToGrabColour && t.startDropperPosition.None?
  {
    DropperTool(map[], None, false)
  }

  datatype Handled = Handled(tool: DropperTool, consumed: bool)

  /** `process_event`: a left press over the canvas records the pointer
      position, arms the sampling and is consumed; anything else changes
      nothing. */
  function ProcessEvent(t: DropperTool, e: MouseEvent, mousePos: Point, insideCanvas: bool): (r: Handled)
    ensures r.consumed <==> IsLeftDown(e) && insideCanvas
    ensures !r.consumed ==> r.tool == t
    ensures r.consumed ==> r.tool.timeToGrabColour && r.tool.startDropperPosition == Some(mousePos) &&
                           r.tool.options == t.options
    ensures Valid(t) ==> Valid(r.tool)
  {
    if IsLeftDown(e) && insideCanvas then
      Handled(t.(startDropperPosition := Some(mousePos), timeToGrabColour := true), true)
    else Handled(t, false)
  }

  /** What a frame produced: nothing, the sampled colour (posted as the
      dropper's colour-changed event), or a failed read because the point
      lies outside the surface. */
  datatype Sample = NoSample | Sampled(colour: Color) | OutOfBounds

  datatype Frame = Frame(tool: DropperTool, sample: Sample)

  /** `update`: when armed, disarm, translate the click into canvas
      coordinates and read the surface there. */
  function Update(t: DropperTool, canvasPosition: Point, surface: Image): (r: Frame)
    requires Valid(t)
    ensures !t.timeToGrabColour ==> r == Frame(t, NoSample)
    ensures t.timeToGrabColour ==>
              (!r.tool.timeToGrabColour && r.tool.options == t.options &&
               r.tool.startDropperPosition == Some(t.startDropperPosition.value.RelativeTo(canvasPosition)))
    ensures t.timeToGrabColour && InGrid(surface, r.tool.startDropperPosition.value.x, r.tool.startDropperPosition.value.y) ==>
              r.sample == Sampled(surface[r.tool.startDropperPosition.value.y][r.tool.startDropperPosition.value.x])
    ensures t.timeToGrabColour && !InGrid(surface, r.tool.startDropperPosition.value.x, r.tool.startDropperPosition.value.y) ==>
              r.sample == OutOfBounds
    ensures Valid(r.tool)
  {
    if t.timeToGrabColour then
      var p := t.startDropperPosition.value.RelativeTo(canvasPosition);
      var tool := t.(timeToGrabColour := false, startDropperPosition := Some(p));
      if InGrid(surface, p.x, p.y) then Frame(tool, Sampled(surface[p.y][p.x]))
      else Frame(tool, OutOfBounds)
    else Frame(t, NoSample)
  }

  /** `set_option`: only keys already in the table change. */
  function SetOption(t: DropperTool, key: string, value: Options.OptionValue): (r: DropperTool)
    ensures r.options.Keys == t.options.Keys
    ensures key !in t.options ==> r == t
  {
    t.(options := Options.SetOption(t.options, key, value))
  }

  /** A click over the canvas followed by a frame samples exactly the
      pixel under the click, in canvas coordinates. */
  lemma ClickThenFrameSamplesUnderPointer(t: DropperTool, e: MouseEvent, mousePos: Point,
                                          canvasPosition: Point, surface: Image)
    requires Valid(t) && IsLeftDown(e)
    requires InGrid(surface, mousePos.x - canvasPosition.x, mousePos.y - canvasPosition.y)
    ensures Update(ProcessEvent(t, e, mousePos, true).tool, canvasPosition, surface).sample ==
            Sampled(surface[mousePos.y - canvasPosition.y][mousePos.x - canvasPosition.x])
  {
  }

  /** The dropper's table starts empty, so no key is ever stored. */
  lemma NewDropperIgnoresEveryOption(key: string, value: Options.OptionValue)
    ensures SetOption(Init(), key, value) == Init()
  {
  }
}
