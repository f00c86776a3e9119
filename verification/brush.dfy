/** The brush tool: a stroke session driven by three flags, the stamp
    rectangles it lays along each rasterized segment of the pointer's path,
    and the integer geometry of the stamp image. */
module Brush {
  import opened Wrappers
  import opened Pixels
  import opened Input
  import opened Line

  /** Transparent margin added around the brush disc on each stamp. */
  const Padding := 8
  /** Supersampling factor of the anti-aliased stamp image. */
  const AaAmount := 4

  /** The tool's state. `stroke` stands for the temporary painting surface:
      `Some(stamps)` while a stroke is open, listing, in canvas-local
      coordinates, every stamp blitted onto it so far; `None` when the
      surface does not exist. */
  datatype BrushTool = BrushTool(
    opacity: Channel,
    colour: Color,
    brushSize: nat,
    centerPosition: Point,
    startPainting: bool,
    stopPainting: bool,
    painting: bool,
    newRectsToBlit: seq<Rect>,
    stroke: Option<seq<Rect>>)

  /** The state between frames: the stroke surface exists exactly while
      painting, no stamp is left pending, a start request is only pending
      while idle and a stop request only while painting. */
  predicate Valid(t: BrushTool) {
    && (t.painting <==> t.stroke.Some?)
    && t.newRectsToBlit == []
    && (t.startPainting ==> !t.painting)
    && (t.stopPainting ==> t.painting)
  }

  /** A new brush: opaque white, size 16, idle. */
  function Init(): (t: BrushTool)
    ensures Valid(t)
    ensures !t.painting && !t.startPainting && !t.stopPainting
    ensures t.opacity == 255 && t.colour == Color(255, 255, 255, 255) && t.brushSize == 16
  {
    BrushTool(255, Color(255, 255, 255, 255), 16, Point(0, 0), false, false, false, [], None)
  }

  /** The side of the stamp image: the brush size plus the padding. */
  function StampSide(brushSize: nat): nat {
    brushSize + Padding
  }

  /** The rectangle the stamp occupies when centred on `p`. */
  function StampRect(brushSize: nat, p: Point): (r: Rect)
    ensures r.w == brushSize + Padding && r.h == brushSize + Padding
    ensures r.Center() == p && r.Contains(p)
  {
    CenteredSquare(p, StampSide(brushSize))
  }

  /** One stamp per point, in order. */
  function Stamps(brushSize: nat, ps: seq<Point>): (rs: seq<Rect>)
    ensures |rs| == |ps|
    ensures forall j :: 0 <= j < |ps| ==> rs[j] == StampRect(brushSize, ps[j])
  {
    seq(|ps|, j requires 0 <= j < |ps| => StampRect(brushSize, ps[j]))
  }

  /** Every rectangle moved into coordinates relative to `origin`. */
  function ShiftAll(rs: seq<Rect>, origin: Point): (out: seq<Rect>)
    ensures |out| == |rs|
    ensures forall j :: 0 <= j < |rs| ==> out[j] == rs[j].RelativeTo(origin)
  {
    seq(|rs|, j requires 0 <= j < |rs| => rs[j].RelativeTo(origin))
  }

  /** The tool and whether it consumed the event. */
  datatype Handled = Handled(tool: BrushTool, consumed: bool)

  /** `process_event`: a left press over the canvas while idle requests a
      stroke start and is consumed; a left release while painting requests
      the stroke's end. `insideCanvas` is the canvas's hover test at the
      pointer. */
  function ProcessEvent(t: BrushTool, e: MouseEvent, insideCanvas: bool): (r: Handled)
    ensures r.consumed <==> IsLeftDown(e) && insideCanvas && !t.painting
    ensures r.tool.startPainting <==> t.startPainting || (IsLeftDown(e) && insideCanvas && !t.painting)
    ensures r.tool.stopPainting <==> t.stopPainting || (IsLeftUp(e) && t.painting)
    ensures r.tool.painting == t.painting && r.tool.stroke == t.stroke
    ensures r.tool.centerPosition == t.centerPosition && r.tool.newRectsToBlit == t.newRectsToBlit
    ensures r.tool.brushSize == t.brushSize && r.tool.colour == t.colour && r.tool.opacity == t.opacity
    ensures Valid(t) ==> Valid(r.tool)
  {
    var start := IsLeftDown(e) && insideCanvas && !t.painting;
    var stop := IsLeftUp(e) && t.painting;
    Handled(t.(startPainting := t.startPainting || start,
               stopPainting := t.stopPainting || stop),
            start)
  }

  /** The tool after a frame, and the stamps committed to the canvas when
      the frame closed a stroke. */
  datatype Frame = Frame(tool: BrushTool, committed: Option<seq<Rect>>)

  /** The start block of `update`: open the stroke surface, queue a stamp
      at the pointer and enter the painting state. */
  function StartBlock(t: BrushTool, newPosition: Point): BrushTool {
    if t.startPainting then
      t.(startPainting := false,
         stroke := Some([]),
         newRectsToBlit := t.newRectsToBlit + [StampRect(t.brushSize, newPosition)],
         painting := true)
    else t
  }

  /** The stop block of `update`: leave the painting state and release the
      stroke surface, whose stamps go onto the canvas. */
  function StopBlock(t: BrushTool): Frame {
    if t.stopPainting then
      Frame(t.(stopPainting := false, painting := false, stroke := None), t.stroke)
    else Frame(t, None)
  }

  /** The painting block of `update`: queue a stamp for every cell of the
      segment from the previous pointer position to the new one, then blit
      every queued stamp onto the stroke surface in canvas-local
      coordinates. */
  function PaintBlock(t: BrushTool, newPosition: Point, canvasPosition: Point): BrushTool {
    if t.painting && t.stroke.Some? then
      var queued := t.newRectsToBlit + Stamps(t.brushSize, PlotLineOrder(t.centerPosition, newPosition));
      t.(stroke := Some(t.stroke.value + ShiftAll(queued, canvasPosition)),
         newRectsToBlit := [])
    else t
  }

  /** `update`: the three blocks in source order, then the pointer position
      becomes the segment start for the next frame. */
  function Update(t: BrushTool, newPosition: Point, canvasPosition: Point): (r: Frame)
    ensures !r.tool.startPainting && !r.tool.stopPainting
    ensures r.tool.centerPosition == newPosition
    ensures r.tool.brushSize == t.brushSize && r.tool.colour == t.colour && r.tool.opacity == t.opacity
    ensures Valid(t) ==> Valid(r.tool)
    ensures Valid(t) && t.stopPainting ==> !r.tool.painting && r.tool.stroke == None && r.committed == t.stroke
    ensures Valid(t) && !t.stopPainting ==> r.committed == None
    ensures Valid(t) && t.startPainting ==>
              r.tool.painting && r.tool.stroke.Some? &&
              StampRect(t.brushSize, newPosition).RelativeTo(canvasPosition) in r.tool.stroke.value
    ensures Valid(t) && (t.painting || t.startPainting) && !t.stopPainting ==>
              r.tool.stroke.Some? &&
              forall p :: p in PlotLine(t.centerPosition, newPosition) ==>
                StampRect(t.brushSize, p).RelativeTo(canvasPosition) in r.tool.stroke.value
    ensures Valid(t) && t.painting && !t.stopPainting ==>
              r.tool.stroke.Some? && t.stroke.value <= r.tool.stroke.value
    ensures Valid(t) && (t.painting || t.startPainting) && !t.stopPainting ==>
              && r.tool.stroke.Some?
              && r.tool.newRectsToBlit == []
              && forall k :: (if t.painting then |t.stroke.value| else 0) <= k < |r.tool.stroke.value| ==>
                   || (t.startPainting &&
                       r.tool.stroke.value[k] == StampRect(t.brushSize, newPosition).RelativeTo(canvasPosition))
                   || SegmentStamp(t.brushSize, t.centerPosition, newPosition, canvasPosition, r.tool.stroke.value[k])
    ensures Valid(t) && !t.painting && !t.startPainting ==> r.tool == t.(centerPosition := newPosition)
  {
    var t1 := StartBlock(t, newPosition);
    var f := StopBlock(t1);
    var t3 := PaintBlock(f.tool, newPosition, canvasPosition);
    var r := Frame(t3.(centerPosition := newPosition), f.committed);
    if Valid(t) && (t.painting || t.startPainting) && !t.stopPainting then
      StrokeCoversSegment(f.tool, newPosition, canvasPosition);
      r
    else r
  }

  /** `rect` is the stamp, in canvas-local coordinates, of a cell of the
      segment from `p` to `q`. */
  predicate SegmentStamp(brushSize: nat, p: Point, q: Point, canvasPosition: Point, rect: Rect) {
    exists c :: c in PlotLine(p, q) && rect == StampRect(brushSize, c).RelativeTo(canvasPosition)
  }

  /** The painting block stamps every cell of the segment and every queued
      stamp onto the stroke, keeps what the stroke held, adds nothing else
      and leaves no stamp queued. */
  lemma StrokeCoversSegment(t: BrushTool, newPosition: Point, canvasPosition: Point)
    requires t.painting && t.stroke.Some?
    ensures PaintBlock(t, newPosition, canvasPosition).stroke.Some?
    ensures PaintBlock(t, newPosition, canvasPosition).newRectsToBlit == []
    ensures forall p :: p in PlotLine(t.centerPosition, newPosition) ==>
              StampRect(t.brushSize, p).RelativeTo(canvasPosition) in PaintBlock(t, newPosition, canvasPosition).stroke.value
    ensures forall r :: r in t.newRectsToBlit ==>
              r.RelativeTo(canvasPosition) in PaintBlock(t, newPosition, canvasPosition).stroke.value
    ensures t.stroke.value <= PaintBlock(t, newPosition, canvasPosition).stroke.value
    ensures forall k :: |t.stroke.value| <= k < |PaintBlock(t, newPosition, canvasPosition).stroke.value| ==>
              || (exists q :: q in t.newRectsToBlit &&
                    PaintBlock(t, newPosition, canvasPosition).stroke.value[k] == q.RelativeTo(canvasPosition))
              || SegmentStamp(t.brushSize, t.centerPosition, newPosition, canvasPosition,
                              PaintBlock(t, newPosition, canvasPosition).stroke.value[k])
  {
    var pts := PlotLineOrder(t.centerPosition, newPosition);
    var queued := t.newRectsToBlit + Stamps(t.brushSize, pts);
    var shifted := ShiftAll(queued, canvasPosition);
    var s := t.stroke.value + shifted;
    assert PaintBlock(t, newPosition, canvasPosition).stroke.value == s;
    forall k | |t.stroke.value| <= k < |s|
      ensures || (exists q :: q in t.newRectsToBlit && s[k] == q.RelativeTo(canvasPosition))
              || SegmentStamp(t.brushSize, t.centerPosition, newPosition, canvasPosition, s[k])
    {
      var i := k - |t.stroke.value|;
      assert s[k] == queued[i].RelativeTo(canvasPosition);
      if i < |t.newRectsToBlit| {
        assert t.newRectsToBlit[i] in t.newRectsToBlit;
      } else {
        var j := i - |t.newRectsToBlit|;
        assert pts[j] in PlotLine(t.centerPosition, newPosition);
        assert s[k] == StampRect(t.brushSize, pts[j]).RelativeTo(canvasPosition);
      }
    }
    forall p | p in PlotLine(t.centerPosition, newPosition)
      ensures StampRect(t.brushSize, p).RelativeTo(canvasPosition) in s
    {
      var j :| 0 <= j < |pts| && pts[j] == p;
      var k := |t.newRectsToBlit| + j;
      assert queued[k] == StampRect(t.brushSize, p);
      assert s[|t.stroke.value| + k] == shifted[k];
    }
    forall r | r in t.newRectsToBlit
      ensures r.RelativeTo(canvasPosition) in s
    {
      var k :| 0 <= k < |t.newRectsToBlit| && t.newRectsToBlit[k] == r;
      assert queued[k] == r;
      assert s[|t.stroke.value| + k] == shifted[k];
    }
  }

  /** A click with no pointer movement since the previous frame opens a
      stroke holding exactly one stamp, centred on the click: the segment
      from a point to itself is empty. */
  lemma ClickWithoutMovement(t: BrushTool, canvasPosition: Point)
    requires Valid(t) && t.startPainting
    ensures Update(t, t.centerPosition, canvasPosition).tool.stroke ==
            Some([StampRect(t.brushSize, t.centerPosition).RelativeTo(canvasPosition)])
  {
    var p := t.centerPosition;
    PlotLineOfOnePointIsEmpty(p);
    var queued := [StampRect(t.brushSize, p)] + Stamps(t.brushSize, PlotLineOrder(p, p));
    assert queued == [StampRect(t.brushSize, p)];
    var t1 := StartBlock(t, p);
    assert t1.newRectsToBlit == [StampRect(t.brushSize, p)] && t1.stroke == Some([]);
    assert StopBlock(t1).tool == t1;
    assert PaintBlock(t1, p, canvasPosition).stroke == Some([] + ShiftAll(queued, canvasPosition));
    assert [] + ShiftAll(queued, canvasPosition) == [StampRect(t.brushSize, p).RelativeTo(canvasPosition)];
  }

  /** `set_colour`, `set_opacity`, `set_size`: each replaces one setting;
      the stamp image is rebuilt from the settings, so later stamps take the
      new size. */
  function SetColour(t: BrushTool, colour: Color): (r: BrushTool)
    ensures r.colour == colour
    ensures Valid(t) ==> Valid(r)
    ensures r.brushSize == t.brushSize && r.opacity == t.opacity && r.stroke == t.stroke
  {
    t.(colour := colour)
  }

  function SetOpacity(t: BrushTool, opacity: Channel): (r: BrushTool)
    ensures r.opacity == opacity
    ensures Valid(t) ==> Valid(r)
    ensures r.brushSize == t.brushSize && r.colour == t.colour && r.stroke == t.stroke
  {
    t.(opacity := opacity)
  }

  function SetSize(t: BrushTool, size: nat): (r: BrushTool)
    ensures r.brushSize == size
    ensures Valid(t) ==> Valid(r)
    ensures r.colour == t.colour && r.opacity == t.opacity && r.stroke == t.stroke
    ensures forall p :: StampRect(r.brushSize, p).w == size + Padding
  {
    t.(brushSize := size)
  }

  /** A disc drawn on the supersampled stamp, by radius and alpha. */
  datatype Circle = Circle(radius: int, alpha: Channel)

  /** The integer geometry `_redraw_brush` uses: the stamp's side, the side
      of the supersampled surface, the discs' common centre coordinate and
      the three discs in drawing order. */
  datatype StampGeometry = StampGeometry(side: nat, aaSide: nat, centre: int, circles: seq<Circle>)

  /** `_redraw_brush`'s arithmetic. The supersampled surface is the stamp
      scaled by the anti-aliasing factor; three concentric discs of rising
      alpha are drawn, each smaller than the previous one. */
  function RedrawBrush(brushSize: nat): (g: StampGeometry)
    ensures g.side == brushSize + Padding
    ensures g.aaSide == AaAmount * g.side
    ensures 2 * g.centre == g.aaSide
    ensures |g.circles| == 3
    ensures g.circles[0].alpha == 85 && g.circles[1].alpha == 175 && g.circles[2].alpha == 255
    ensures 2 * g.circles[1].radius == AaAmount * brushSize
    ensures g.circles[0].radius == g.circles[1].radius + 2 && g.circles[2].radius == g.circles[1].radius - 2
    ensures forall i, j :: 0 <= i < j < 3 ==>
              g.circles[i].alpha < g.circles[j].alpha && g.circles[i].radius > g.circles[j].radius
    ensures forall i :: 0 <= i < 3 ==> g.circles[i].radius < g.centre
  {
    var aaBrushSize := 4 * brushSize;
    var aaSide := aaBrushSize + 32;
    var r := aaBrushSize / 2;
    assert r == 2 * brushSize;
    var circles := [Circle(r + 2, 85), Circle(r, 175), Circle(r - 2, 255)];
    StampGeometry(brushSize + Padding, aaSide, aaSide / 2, circles)
  }
}
