/** The fill tool's span-based flood fill. It reads a colour grid (the
    canvas) and writes a separate marker grid: a marker cell still holding
    the blank value whose canvas colour is close enough to the seed colour
    gets the fill value. The two mutually recursive procedures find a
    top-left corner (`RectFill`) and then fill row by row downwards,
    recursing into the regions they uncover above and below
    (`RectFillCore`). */
module ScanlineFill {
  import opened Pixels

  function Sq(n: int): nat {
    n * n
  }

  lemma SqBound(n: int)
    requires -255 <= n <= 255
    ensures Sq(n) <= 65025
  {
    var a := Abs(n);
    assert Sq(n) == a * a;
    MulMonotone(a, a, 255);
    MulMonotone(255, a, 255);
  }

  /** `calc_cheap_distance_between_colours`: the sum of the squared red,
      green and blue differences; alpha plays no part. */
  function CheapDistance(c1: Color, c2: Color): (d: nat)
    ensures d <= 195075
    ensures d == 0 <==> c1.r == c2.r && c1.g == c2.g && c1.b == c2.b
  {
    SqBound(c2.r - c1.r);
    SqBound(c2.g - c1.g);
    SqBound(c2.b - c1.b);
    Sq(c2.r - c1.r) + Sq(c2.g - c1.g) + Sq(c2.b - c1.b)
  }

  lemma CheapDistanceSymmetric(c1: Color, c2: Color)
    ensures CheapDistance(c1, c2) == CheapDistance(c2, c1)
  {
    assert Sq(c2.r - c1.r) == Sq(c1.r - c2.r);
    assert Sq(c2.g - c1.g) == Sq(c1.g - c2.g);
    assert Sq(c2.b - c1.b) == Sq(c1.b - c2.b);
  }

  lemma CheapDistanceIgnoresAlpha(c1: Color, c2: Color, a1: Channel, a2: Channel)
    ensures CheapDistance(c1.(a := a1), c2.(a := a2)) == CheapDistance(c1, c2)
  {
  }

  /** What the fill works with: the canvas it reads, its size, the colour
      under the seed, the effective threshold, the marker's blank value and
      the fill value. */
  datatype FillCtx = FillCtx(
    canvas: Image,
    width: nat,
    height: nat,
    seedColour: Color,
    threshold: real,
    blank: Color,
    fill: Color)

  /** The canvas has the stated size, and writing the fill value changes
      a blank cell. */
  predicate ValidCtx(ctx: FillCtx) {
    IsGrid(ctx.canvas, ctx.width, ctx.height) && ctx.blank != ctx.fill
  }

  /** `m` is a marker grid of the canvas's size. */
  predicate Marker(ctx: FillCtx, m: Image) {
    IsGrid(m, ctx.width, ctx.height)
  }

  predicate InBounds(ctx: FillCtx, x: int, y: int) {
    0 <= x < ctx.width && 0 <= y < ctx.height
  }

  /** The canvas colour at (`x`, `y`) is strictly closer to the seed colour
      than the threshold. */
  predicate Eligible(ctx: FillCtx, x: int, y: int)
    requires ValidCtx(ctx) && InBounds(ctx, x, y)
  {
    (CheapDistance(ctx.canvas[y][x], ctx.seedColour) as real) < ctx.threshold
  }

  /** `_test_fill_pixel`: the marker is still blank and the pixel is eligible. */
  predicate TestFillPixel(ctx: FillCtx, m: Image, x: int, y: int)
    requires ValidCtx(ctx) && Marker(ctx, m) && InBounds(ctx, x, y)
  {
    m[y][x] == ctx.blank && Eligible(ctx, x, y)
  }

  /** `b` is `a` with some blank, eligible cells turned into the fill value
      and every other cell as it was. */
  predicate Grows(ctx: FillCtx, a: Image, b: Image)
    requires ValidCtx(ctx) && Marker(ctx, a) && Marker(ctx, b)
  {
    forall y, x :: 0 <= y < ctx.height && 0 <= x < ctx.width ==>
      b[y][x] == a[y][x] || (a[y][x] == ctx.blank && Eligible(ctx, x, y) && b[y][x] == ctx.fill)
  }

  lemma GrowsTransitive(ctx: FillCtx, a: Image, b: Image, c: Image)
    requires ValidCtx(ctx) && Marker(ctx, a) && Marker(ctx, b) && Marker(ctx, c)
    requires Grows(ctx, a, b) && Grows(ctx, b, c)
    ensures Grows(ctx, a, c)
  {
  }

  /** With a threshold of zero or less no pixel is eligible, so nothing
      can be filled. */
  lemma NonPositiveThresholdFillsNothing(ctx: FillCtx, a: Image, b: Image)
    requires ValidCtx(ctx) && Marker(ctx, a) && Marker(ctx, b)
    requires ctx.threshold <= 0.0
    requires Grows(ctx, a, b)
    ensures a == b
  {
    forall y, x | InGrid(a, x, y) ensures a[y][x] == b[y][x] {
      assert InBounds(ctx, x, y);
    }
    GridExtensionality(a, b);
  }

  /** A pixel of exactly the seed colour is eligible exactly when the
      threshold is positive. */
  lemma SeedColourEligible(ctx: FillCtx, x: int, y: int)
    requires ValidCtx(ctx) && InBounds(ctx, x, y)
    requires ctx.canvas[y][x] == ctx.seedColour
    ensures Eligible(ctx, x, y) <==> ctx.threshold > 0.0
  {
  }

  /** The number of entries of `row` equal to `v`. */
  function CountIn(row: seq<Color>, v: Color): nat {
    if |row| == 0 then 0 else (if row[0] == v then 1 else 0) + CountIn(row[1..], v)
  }

  /** The number of blank cells in `g`. */
  function BlankCount(g: Image, v: Color): nat {
    if |g| == 0 then 0 else CountIn(g[0], v) + BlankCount(g[1..], v)
  }

  lemma {:induction false} CountInMonotone(a: seq<Color>, b: seq<Color>, v: Color)
    requires |a| == |b|
    requires forall i :: 0 <= i < |b| && b[i] == v ==> a[i] == v
    ensures CountIn(b, v) <= CountIn(a, v)
  {
    if |a| > 0 {
      CountInMonotone(a[1..], b[1..], v);
    }
  }

  lemma {:induction false} CountInWrite(a: seq<Color>, i: nat, v: Color, w: Color)
    requires i < |a| && a[i] == v && w != v
    ensures CountIn(a[i := w], v) == CountIn(a, v) - 1
  {
    if i > 0 {
      assert a[i := w][1..] == a[1..][i - 1 := w];
      CountInWrite(a[1..], i - 1, v, w);
    } else {
      assert a[i := w][1..] == a[1..];
    }
  }

  lemma {:induction false} BlankCountMonotone(a: Image, b: Image, v: Color)
    requires SameShape(a, b)
    requires forall y, x :: InGrid(b, x, y) && b[y][x] == v ==> a[y][x] == v
    ensures BlankCount(b, v) <= BlankCount(a, v)
  {
    if |a| > 0 {
      forall x | 0 <= x < |b[0]| && b[0][x] == v ensures a[0][x] == v {
        assert InGrid(b, x, 0);
      }
      CountInMonotone(a[0], b[0], v);
      forall y, x | InGrid(b[1..], x, y) && b[1..][y][x] == v ensures a[1..][y][x] == v {
        assert InGrid(b, x, y + 1);
      }
      BlankCountMonotone(a[1..], b[1..], v);
    }
  }

  lemma {:induction false} BlankCountWrite(a: Image, x: int, y: int, v: Color, w: Color)
    requires InGrid(a, x, y) && a[y][x] == v && w != v
    ensures BlankCount(SetCell(a, x, y, w), v) == BlankCount(a, v) - 1
  {
    var b := SetCell(a, x, y, w);
    if y == 0 {
      assert b[0] == a[0][x := w];
      CountInWrite(a[0], x, v, w);
      assert b[1..] == a[1..];
    } else {
      assert b[1..] == SetCell(a[1..], x, y - 1, w);
      BlankCountWrite(a[1..], x, y - 1, v, w);
    }
  }

  /** A fill never creates blank cells, so the blank count never rises. */
  lemma GrowsCount(ctx: FillCtx, a: Image, b: Image)
    requires ValidCtx(ctx) && Marker(ctx, a) && Marker(ctx, b) && Grows(ctx, a, b)
    ensures BlankCount(b, ctx.blank) <= BlankCount(a, ctx.blank)
  {
    forall y, x | InGrid(b, x, y) && b[y][x] == ctx.blank ensures a[y][x] == ctx.blank {
      assert InBounds(ctx, x, y);
    }
    BlankCountMonotone(a, b, ctx.blank);
  }

  /** Writing the fill value where the test passed is a growth step that
      removes exactly one blank cell. */
  function Write(ctx: FillCtx, m: Image, x: int, y: int): (m': Image)
    requires ValidCtx(ctx) && Marker(ctx, m) && InBounds(ctx, x, y) && TestFillPixel(ctx, m, x, y)
    ensures Marker(ctx, m') && Grows(ctx, m, m')
    ensures m'[y][x] == ctx.fill
    ensures BlankCount(m', ctx.blank) == BlankCount(m, ctx.blank) - 1
  {
    BlankCountWrite(m, x, y, ctx.blank, ctx.fill);
    SetCell(m, x, y, ctx.fill)
  }

  /** The columns the source's `while sx + 1 < end` loops visit: from
      `start` up to but excluding `stop - 1`. */
  function AsWrittenScan(start: int, stop: int): (cols: seq<int>)
    decreases stop - start
  {
    if start + 1 < stop then [start] + AsWrittenScan(start + 1, stop) else []
  }

  /** The as-written loop probes exactly `[start, stop - 1)`: the cell at
      `start`, where the row scan already stopped, and never `stop - 1`. */
  lemma {:induction false} AsWrittenScanRange(start: int, stop: int, c: int)
    ensures c in AsWrittenScan(start, stop) <==> start <= c < stop - 1
    decreases stop - start
  {
    if start + 1 < stop {
      AsWrittenScanRange(start + 1, stop, c);
    }
  }

  /** On a row whose scan stopped at column 3 under a previous row ending
      before column 5, the as-written loop probes only column 3 and never
      column 4; the corrected scan probes column 4. */
  lemma AsWrittenScanMissesColumn()
    ensures AsWrittenScan(3, 5) == [3]
    ensures 4 !in AsWrittenScan(3, 5)
    ensures ScanBetween(3, 5) == [4]
  {
    AsWrittenScanRange(3, 5, 4);
  }

  /** The columns strictly between a cell where a scan stopped and `stop`:
      the probe loops of the algorithm the fill follows (`++sx < end`). */
  function ScanBetween(blocked: int, stop: int): (cols: seq<int>)
    ensures forall c :: c in cols <==> blocked < c < stop
    ensures forall i :: 0 <= i < |cols| ==> cols[i] == blocked + 1 + i
  {
    var n := if blocked + 1 < stop then stop - blocked - 1 else 0;
    var cols := seq(n, i => blocked + 1 + i);
    forall c | blocked < c < stop ensures c in cols {
      assert cols[c - blocked - 1] == c;
    }
    cols
  }

  /** `_rect_fill`: walk up, then left, while the neighbouring cell passes
      the test, until neither move is possible; fill from that corner. */
  method RectFill(ctx: FillCtx, m: Image, x0: int, y0: int) returns (m': Image)
    requires ValidCtx(ctx) && Marker(ctx, m) && InBounds(ctx, x0, y0)
    ensures Marker(ctx, m') && Grows(ctx, m, m')
    decreases BlankCount(m, ctx.blank), 3
  {
    var x, y := x0, y0;
    while true
      invariant InBounds(ctx, x, y)
      decreases x + y
    {
      var ox, oy := x, y;
      while y != 0 && TestFillPixel(ctx, m, x, y - 1)
        invariant InBounds(ctx, x, y) && y <= oy
        decreases y
      {
        y := y - 1;
      }
      while x != 0 && TestFillPixel(ctx, m, x - 1, y)
        invariant InBounds(ctx, x, y) && x <= ox
        decreases x
      {
        x := x - 1;
      }
      if x == ox && y == oy {
        break;
      }
    }
    m' := RectFillCore(ctx, m, x, y);
  }

  /** The left-extension loop of `_rect_fill_core`: fill leftwards from
      `x0` while the next cell passes the test, starting a corner fill
      above each new cell that passes the test. `m0` is the grid the
      enclosing core call started from. */
  method LeftScan(ctx: FillCtx, ghost m0: Image, m: Image, x0: int, y: int) returns (m': Image, x: int)
    requires ValidCtx(ctx) && Marker(ctx, m0) && Marker(ctx, m) && InBounds(ctx, x0, y)
    requires Grows(ctx, m0, m)
    ensures Marker(ctx, m') && Grows(ctx, m, m')
    ensures 0 <= x <= x0
    ensures x == 0 || !TestFillPixel(ctx, m', x - 1, y)
    ensures forall i :: x <= i < x0 ==> m'[y][i] == ctx.fill
    ensures x < x0 ==> BlankCount(m', ctx.blank) < BlankCount(m, ctx.blank)
    decreases BlankCount(m0, ctx.blank), 1
  {
    GrowsCount(ctx, m0, m);
    m', x := m, x0;
    while x != 0 && TestFillPixel(ctx, m', x - 1, y)
      invariant Marker(ctx, m') && Grows(ctx, m, m')
      invariant 0 <= x <= x0
      invariant forall i :: x <= i < x0 ==> m'[y][i] == ctx.fill
      invariant x < x0 ==> BlankCount(m', ctx.blank) < BlankCount(m, ctx.blank)
      decreases x
    {
      x := x - 1;
      var written := Write(ctx, m', x, y);
      GrowsTransitive(ctx, m, m', written);
      GrowsCount(ctx, m, m');
      m' := written;
      if y != 0 && TestFillPixel(ctx, m', x, y - 1) {
        var above := RectFill(ctx, m', x, y - 1);
        GrowsTransitive(ctx, m, m', above);
        GrowsCount(ctx, m', above);
        m' := above;
      }
    }
  }

  /** The right-extension loop: fill rightwards from `sx0` while the cell
      passes the test; the row ends at the first cell that fails it or at
      the grid's edge. */
  method RightScan(ctx: FillCtx, m: Image, sx0: int, y: int) returns (m': Image, sx: int)
    requires ValidCtx(ctx) && Marker(ctx, m) && 0 <= sx0 <= ctx.width && 0 <= y < ctx.height
    ensures Marker(ctx, m') && Grows(ctx, m, m')
    ensures sx0 <= sx <= ctx.width
    ensures sx < ctx.width ==> !TestFillPixel(ctx, m', sx, y)
    ensures forall i :: sx0 <= i < sx ==> m'[y][i] == ctx.fill
    ensures sx > sx0 ==> BlankCount(m', ctx.blank) < BlankCount(m, ctx.blank)
  {
    m', sx := m, sx0;
    while sx < ctx.width && TestFillPixel(ctx, m', sx, y)
      invariant Marker(ctx, m') && Grows(ctx, m, m')
      invariant sx0 <= sx <= ctx.width
      invariant forall i :: sx0 <= i < sx ==> m'[y][i] == ctx.fill
      invariant sx > sx0 ==> BlankCount(m', ctx.blank) < BlankCount(m, ctx.blank)
      decreases ctx.width - sx
    {
      var written := Write(ctx, m', sx, y);
      GrowsTransitive(ctx, m, m', written);
      GrowsCount(ctx, m, m');
      m' := written;
      sx := sx + 1;
    }
  }

  /** Row `y` probed at each column of `cols` in turn: a column whose cell
      passes the test starts a core fill there. Afterwards every probed
      cell fails the test: it was filled, or it was never eligible. */
  method ProbeBelow(ctx: FillCtx, m: Image, cols: seq<int>, y: int) returns (m': Image)
    requires ValidCtx(ctx) && Marker(ctx, m) && 0 <= y < ctx.height
    requires forall k :: 0 <= k < |cols| ==> 0 <= cols[k] < ctx.width
    ensures Marker(ctx, m') && Grows(ctx, m, m')
    ensures forall k :: 0 <= k < |cols| ==> !TestFillPixel(ctx, m', cols[k], y)
    decreases BlankCount(m, ctx.blank), 4
  {
    m' := m;
    var i := 0;
    while i < |cols|
      invariant 0 <= i <= |cols|
      invariant Marker(ctx, m') && Grows(ctx, m, m')
      invariant BlankCount(m', ctx.blank) <= BlankCount(m, ctx.blank)
      invariant forall k :: 0 <= k < i ==> !TestFillPixel(ctx, m', cols[k], y)
    {
      var c := cols[i];
      if TestFillPixel(ctx, m', c, y) {
        var filled := RectFillCore(ctx, m', c, y);
        GrowsTransitive(ctx, m, m', filled);
        GrowsCount(ctx, m', filled);
        m' := filled;
      }
      i := i + 1;
    }
  }

  /** Row `yAbove` probed at each column of `cols` in turn: a column whose
      cell passes the test starts a corner fill there. */
  method ProbeAbove(ctx: FillCtx, m: Image, cols: seq<int>, yAbove: int) returns (m': Image)
    requires ValidCtx(ctx) && Marker(ctx, m) && 0 <= yAbove < ctx.height
    requires forall k :: 0 <= k < |cols| ==> 0 <= cols[k] < ctx.width
    ensures Marker(ctx, m') && Grows(ctx, m, m')
    decreases BlankCount(m, ctx.blank), 4
  {
    m' := m;
    var i := 0;
    while i < |cols|
      invariant 0 <= i <= |cols|
      invariant Marker(ctx, m') && Grows(ctx, m, m')
      invariant BlankCount(m', ctx.blank) <= BlankCount(m, ctx.blank)
    {
      var c := cols[i];
      if TestFillPixel(ctx, m', c, yAbove) {
        var filled := RectFill(ctx, m', c, yAbove);
        GrowsTransitive(ctx, m, m', filled);
        GrowsCount(ctx, m', filled);
        m' := filled;
      }
      i := i + 1;
    }
  }

  /** The probe of the current row under the rest of the previous row, as
      the source loops (`while sx + 1 < end`): columns `blocked` up to
      `stop - 2`, each of which ends up failing the test. Column
      `stop - 1` is not probed. */
  method BelowScan(ctx: FillCtx, m: Image, blocked: int, stop: int, y: int) returns (m': Image)
    requires ValidCtx(ctx) && Marker(ctx, m)
    requires 0 <= blocked && stop <= ctx.width && 0 <= y < ctx.height
    ensures Marker(ctx, m') && Grows(ctx, m, m')
    ensures forall c :: blocked <= c < stop - 1 ==> !TestFillPixel(ctx, m', c, y)
    decreases BlankCount(m, ctx.blank), 5
  {
    var cols := AsWrittenScan(blocked, stop);
    forall k | 0 <= k < |cols| ensures 0 <= cols[k] < ctx.width {
      AsWrittenScanRange(blocked, stop, cols[k]);
    }
    m' := ProbeBelow(ctx, m, cols, y);
    forall c | blocked <= c < stop - 1 ensures !TestFillPixel(ctx, m', c, y) {
      AsWrittenScanRange(blocked, stop, c);
    }
  }

  /** The below probe with the range the scan-line algorithm intends
      (`++sx < end`): every column strictly between the cell where the row
      scan stopped and `stop` ends up failing the test, `stop - 1`
      included. */
  method CorrectedBelowScan(ctx: FillCtx, m: Image, blocked: int, stop: int, y: int) returns (m': Image)
    requires ValidCtx(ctx) && Marker(ctx, m)
    requires 0 <= blocked && stop <= ctx.width && 0 <= y < ctx.height
    ensures Marker(ctx, m') && Grows(ctx, m, m')
    ensures forall c :: blocked < c < stop ==> !TestFillPixel(ctx, m', c, y)
  {
    var cols := ScanBetween(blocked, stop);
    m' := ProbeBelow(ctx, m, cols, y);
    forall c | blocked < c < stop ensures !TestFillPixel(ctx, m', c, y) {
      assert cols[c - blocked - 1] == c;
    }
  }

  /** Whenever the range is not empty, the as-written loop leaves out
      the last column before `stop`, which the corrected range probes. */
  lemma AsWrittenScanSkipsLastColumn(blocked: int, stop: int)
    requires blocked + 1 < stop
    ensures stop - 1 !in AsWrittenScan(blocked, stop)
    ensures stop - 1 in ScanBetween(blocked, stop)
  {
    AsWrittenScanRange(blocked, stop, stop - 1);
  }

  /** The probe of the previous row above the new part of the current
      row, as the source loops (`while ux + 1 < sx`): columns `blocked`
      up to `stop - 2` of row `yAbove`. */
  method AboveScan(ctx: FillCtx, m: Image, blocked: int, stop: int, yAbove: int) returns (m': Image)
    requires ValidCtx(ctx) && Marker(ctx, m)
    requires 0 <= blocked && stop <= ctx.width && 0 <= yAbove < ctx.height
    ensures Marker(ctx, m') && Grows(ctx, m, m')
    decreases BlankCount(m, ctx.blank), 5
  {
    var cols := AsWrittenScan(blocked, stop);
    forall k | 0 <= k < |cols| ensures 0 <= cols[k] < ctx.width {
      AsWrittenScanRange(blocked, stop, cols[k]);
    }
    m' := ProbeAbove(ctx, m, cols, yAbove);
  }

  /** `_rect_fill_core`: fill the row through (`x0`, `y0`), then each row
      below it, as long as the rows keep overlapping; a row shorter than
      the previous one is probed for regions below the rest of the previous
      row, a longer one for regions above its new part. */
  method RectFillCore(ctx: FillCtx, m: Image, x0: int, y0: int) returns (m': Image)
    requires ValidCtx(ctx) && Marker(ctx, m) && InBounds(ctx, x0, y0)
    ensures Marker(ctx, m') && Grows(ctx, m, m')
    ensures !TestFillPixel(ctx, m', x0, y0)
    decreases BlankCount(m, ctx.blank), 2
  {
    m' := m;
    var x, y := x0, y0;
    var lastRowLength := 0;
    ghost var started := false;
    while true
      invariant Marker(ctx, m') && Grows(ctx, m, m')
      invariant InBounds(ctx, x, y) && 0 <= lastRowLength && x + lastRowLength <= ctx.width
      invariant lastRowLength > 0 ==> BlankCount(m', ctx.blank) < BlankCount(m, ctx.blank)
      invariant started ==> !TestFillPixel(ctx, m', x0, y0)
      invariant !started ==> lastRowLength == 0 && x == x0 && y == y0
      decreases ctx.height - y
    {
      GrowsCount(ctx, m, m');
      var rowLength := 0;
      var sx := x;
      if lastRowLength == 0 || TestFillPixel(ctx, m', x, y) {
        var left, lx := LeftScan(ctx, m, m', x, y);
        GrowsTransitive(ctx, m, m', left);
        GrowsCount(ctx, m', left);
        m' := left;
        rowLength := sx - lx;
        lastRowLength := lastRowLength + (sx - lx);
        x := lx;
      } else {
        while true
          invariant 0 < lastRowLength && x + lastRowLength <= ctx.width && 0 <= x
          decreases lastRowLength
        {
          lastRowLength := lastRowLength - 1;
          if lastRowLength == 0 {
            return;
          }
          x := x + 1;
          if TestFillPixel(ctx, m', x, y) {
            break;
          }
        }
        sx := x;
      }
      var right, rx := RightScan(ctx, m', sx, y);
      GrowsTransitive(ctx, m, m', right);
      GrowsCount(ctx, m', right);
      m' := right;
      started := true;
      rowLength := rowLength + (rx - sx);
      sx := rx;
      assert rowLength > 0 ==> BlankCount(m', ctx.blank) < BlankCount(m, ctx.blank);

      if rowLength < lastRowLength {
        var below := BelowScan(ctx, m', sx, x + lastRowLength, y);
        GrowsTransitive(ctx, m, m', below);
        GrowsCount(ctx, m', below);
        m' := below;
      } else if rowLength > lastRowLength && y != 0 {
        var above := AboveScan(ctx, m', x + lastRowLength, sx, y - 1);
        GrowsTransitive(ctx, m, m', above);
        GrowsCount(ctx, m', above);
        m' := above;
      }
      lastRowLength := rowLength;
      if lastRowLength == 0 || y + 1 >= ctx.height {
        break;
      }
      y := y + 1;
    }
  }

  /** `_rect_fill_start`: the blank value is whatever the fresh marker
      holds at (0, 0); fill from the seed. Only the marker is written: every
      cell of the result either kept its value or was blank, is eligible
      and now holds the fill value. */
  method RectFillStart(canvas: Image, marker: Image, width: nat, height: nat,
                       x: int, y: int, seedColour: Color, threshold: real, fill: Color)
    returns (m': Image)
    requires IsGrid(canvas, width, height) && IsGrid(marker, width, height)
    requires 0 <= x < width && 0 <= y < height
    requires fill != marker[0][0]
    ensures IsGrid(m', width, height)
    ensures forall j, i :: 0 <= j < height && 0 <= i < width ==>
              m'[j][i] == marker[j][i] ||
              (marker[j][i] == marker[0][0] &&
               (CheapDistance(canvas[j][i], seedColour) as real) < threshold &&
               m'[j][i] == fill)
    ensures threshold <= 0.0 ==> m' == marker
  {
    var ctx := FillCtx(canvas, width, height, seedColour, threshold, marker[0][0], fill);
    m' := RectFill(ctx, marker, x, y);
    if threshold <= 0.0 {
      NonPositiveThresholdFillsNothing(ctx, marker, m');
    }
  }
}
