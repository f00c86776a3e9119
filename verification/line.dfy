/** The brush's line rasterizer: Bresenham's algorithm split into a shallow
    and a steep helper, each iterating from the endpoint with the smaller
    coordinate on its major axis and leaving the far endpoint out. */
module Line {
  import opened Pixels

  /** The loop both helpers share, written on a major and a minor axis: the
      result's `x` is the major coordinate, its `y` the minor one. Each step
      emits the current cell, then moves the minor coordinate by `ni` when the
      error term `d` is positive; `m` runs over `[m, mEnd)`. */
  function Walk(m: int, mEnd: int, n: int, ni: int, d: int, dMajor: int, dMinor: int): (w: seq<Point>)
    ensures |w| == if m < mEnd then mEnd - m else 0
    ensures |w| > 0 ==> w[0] == Point(m, n)
    ensures forall j :: 0 <= j < |w| ==> w[j].x == m + j
    decreases mEnd - m
  {
    if m >= mEnd then []
    else
      [Point(m, n)] +
      Walk(m + 1, mEnd,
           if d > 0 then n + ni else n,
           ni,
           if d > 0 then d - 2 * dMajor + 2 * dMinor else d + 2 * dMinor,
           dMajor, dMinor)
  }

  /** Exchanges the axes of every point. */
  function SwapAxes(s: seq<Point>): (r: seq<Point>)
    ensures |r| == |s|
    ensures forall j :: 0 <= j < |s| ==> r[j] == Point(s[j].y, s[j].x)
  {
    seq(|s|, j requires 0 <= j < |s| => Point(s[j].y, s[j].x))
  }

  /** The direction of the minor step: -1 when the minor coordinate
      decreases, 1 otherwise (including when it stays put). */
  function Step(v: int): (s: int)
    ensures s == 1 || s == -1
    ensures s * v == Abs(v)
  {
    if v < 0 then -1 else 1
  }

  /** `_plot_line_low`: x is the major axis; the minor step is the sign of `y1 - y0`. */
  function PlotLineLow(x0: int, y0: int, x1: int, y1: int): seq<Point> {
    var dx := x1 - x0;
    var dy := Abs(y1 - y0);
    Walk(x0, x1, y0, Step(y1 - y0), 2 * dy - dx, dx, dy)
  }

  /** `_plot_line_high`: y is the major axis; the minor step is the sign of `x1 - x0`. */
  function PlotLineHigh(x0: int, y0: int, x1: int, y1: int): seq<Point> {
    var dy := y1 - y0;
    var dx := Abs(x1 - x0);
    SwapAxes(Walk(y0, y1, x0, Step(x1 - x0), 2 * dx - dy, dy, dx))
  }

  /** The cells `_plot_line` adds, in the order it adds them. */
  function PlotLineOrder(p: Point, q: Point): seq<Point> {
    if Abs(q.y - p.y) < Abs(q.x - p.x) then
      if p.x > q.x then PlotLineLow(q.x, q.y, p.x, p.y) else PlotLineLow(p.x, p.y, q.x, q.y)
    else
      if p.y > q.y then PlotLineHigh(q.x, q.y, p.x, p.y) else PlotLineHigh(p.x, p.y, q.x, q.y)
  }

  function Elements(s: seq<Point>): set<Point> {
    set j | 0 <= j < |s| :: s[j]
  }

  /** `_plot_line`: the set of cells joining `p` to `q`. */
  function PlotLine(p: Point, q: Point): set<Point> {
    Elements(PlotLineOrder(p, q))
  }

  predicate Shallow(p: Point, q: Point) {
    Abs(q.y - p.y) < Abs(q.x - p.x)
  }

  /** Two cells touch, sideways or diagonally. */
  predicate Adjacent8(a: Point, b: Point) {
    a != b && Abs(a.x - b.x) <= 1 && Abs(a.y - b.y) <= 1
  }

  /** `v` lies between `n0` and the cell `dMinor` steps of `ni` away from it. */
  predicate Within(n0: int, ni: int, dMinor: int, v: int) {
    if ni == 1 then n0 <= v <= n0 + dMinor else n0 - dMinor <= v <= n0
  }

  /** `a * b`, by repeated addition; kept recursive so that the solver
      reasons about the error term linearly. */
  function Prod(a: int, b: nat): int {
    if b == 0 then 0 else Prod(a, b - 1) + a
  }

  lemma {:induction false} ProdIsProduct(a: int, b: nat)
    ensures Prod(a, b) == a * b
  {
    if b > 0 {
      ProdIsProduct(a, b - 1);
    }
  }

  /** Every minor coordinate of `w` is `Within` the given range. */
  predicate WalkWithin(w: seq<Point>, n0: int, ni: int, dMinor: int) {
    forall j :: 0 <= j < |w| ==> Within(n0, ni, dMinor, w[j].y)
  }

  lemma MulCancelStrict(a: int, b: int, c: int)
    requires a > 0 && a * b < a * c
    ensures b < c
  {
    if b >= c {
      MulMonotone(a, c, b);
    }
  }

  /** The arithmetic core of the error-term argument: fewer than `dMajor`
      major steps cannot have produced more than `dMinor` minor steps. */
  lemma MinorStepsBounded(dMajor: int, dMinor: int, i: nat, k: nat)
    requires 0 <= dMinor <= dMajor && i < dMajor
    requires 2 * Prod(dMajor, k) <= 2 * Prod(dMinor, i) + dMajor
    ensures k <= dMinor
  {
    ProdIsProduct(dMajor, k);
    ProdIsProduct(dMinor, i);
    MulMonotone(dMinor, i, dMajor - 1);
    assert dMinor * (dMajor - 1) == dMinor * dMajor - dMinor;
    assert dMajor * (dMinor + 1) == dMajor * dMinor + dMajor;
    MulCancelStrict(dMajor, k, dMinor + 1);
  }

  /** The error-term invariant of Bresenham's loop. After `i = m - m0` major
      steps and `k` minor ones, `d == 2 dMinor (i + 1) - dMajor - 2 dMajor k`
      and `2 dMajor k <= 2 dMinor i + dMajor`. Since at most `dMajor` cells
      are emitted, the minor coordinate never moves more than `dMinor` steps
      from where it started. */
  lemma {:induction false} WalkStaysNear(m0: int, n0: int, ni: int, dMajor: int, dMinor: int,
                                         m: int, n: int, k: nat, d: int)
    requires ni == 1 || ni == -1
    requires 0 <= dMinor <= dMajor
    requires m0 <= m <= m0 + dMajor
    requires n == if ni == 1 then n0 + k else n0 - k
    requires d == 2 * Prod(dMinor, m - m0) + 2 * dMinor - dMajor - 2 * Prod(dMajor, k)
    requires 2 * Prod(dMajor, k) <= 2 * Prod(dMinor, m - m0) + dMajor
    ensures WalkWithin(Walk(m, m0 + dMajor, n, ni, d, dMajor, dMinor), n0, ni, dMinor)
    decreases m0 + dMajor - m
  {
    if m < m0 + dMajor {
      MinorStepsBounded(dMajor, dMinor, m - m0, k);
      assert Prod(dMinor, m + 1 - m0) == Prod(dMinor, m - m0) + dMinor;
      assert Prod(dMajor, k + 1) == Prod(dMajor, k) + dMajor;
      var n' := if d > 0 then n + ni else n;
      var d' := if d > 0 then d - 2 * dMajor + 2 * dMinor else d + 2 * dMinor;
      var k': nat := if d > 0 then k + 1 else k;
      WalkStaysNear(m0, n0, ni, dMajor, dMinor, m + 1, n', k', d');
      ConsWithin(Point(m, n), Walk(m + 1, m0 + dMajor, n', ni, d', dMajor, dMinor), n0, ni, dMinor);
    }
  }

  lemma ConsWithin(p: Point, rest: seq<Point>, n0: int, ni: int, dMinor: int)
    requires Within(n0, ni, dMinor, p.y) && WalkWithin(rest, n0, ni, dMinor)
    ensures WalkWithin([p] + rest, n0, ni, dMinor)
  {
    var w := [p] + rest;
    forall j | 0 < j < |w|
      ensures Within(n0, ni, dMinor, w[j].y)
    {
      assert w[j] == rest[j - 1];
    }
  }

  /** Successive minor coordinates differ by at most one. */
  predicate UnitSteps(w: seq<Point>) {
    forall j :: 0 <= j < |w| - 1 ==> Abs(w[j + 1].y - w[j].y) <= 1
  }

  /** Prepending a cell one minor step or less from the next keeps unit steps. */
  lemma ConsUnitSteps(p: Point, rest: seq<Point>)
    requires UnitSteps(rest)
    requires |rest| > 0 ==> Abs(rest[0].y - p.y) <= 1
    ensures UnitSteps([p] + rest)
  {
    var w := [p] + rest;
    forall j | 0 <= j < |w| - 1
      ensures Abs(w[j + 1].y - w[j].y) <= 1
    {
      if j > 0 {
        assert w[j] == rest[j - 1] && w[j + 1] == rest[j];
      }
    }
  }

  /** Each step of the loop moves the minor coordinate by `ni` or not at all. */
  lemma {:induction false} WalkSteps(m: int, mEnd: int, n: int, ni: int, d: int, dMajor: int, dMinor: int)
    requires ni == 1 || ni == -1
    ensures UnitSteps(Walk(m, mEnd, n, ni, d, dMajor, dMinor))
    decreases mEnd - m
  {
    if m < mEnd {
      var n' := if d > 0 then n + ni else n;
      var d' := if d > 0 then d - 2 * dMajor + 2 * dMinor else d + 2 * dMinor;
      WalkSteps(m + 1, mEnd, n', ni, d', dMajor, dMinor);
      ConsUnitSteps(Point(m, n), Walk(m + 1, mEnd, n', ni, d', dMajor, dMinor));
    }
  }

  /** `w` advances the major axis one cell at a time from `m0`, keeps its
      minor coordinates within `[lo, hi]` and moves them by at most one cell
      per step. */
  predicate Run(w: seq<Point>, m0: int, lo: int, hi: int) {
    && (forall j :: 0 <= j < |w| ==> w[j].x == m0 + j)
    && (forall j :: 0 <= j < |w| ==> lo <= w[j].y <= hi)
    && UnitSteps(w)
  }

  /** The shallow helper, called with its endpoints in order, emits
      `x1 - x0` cells forming a `Run` from its start point between the two
      endpoints' y values. */
  lemma LowRun(x0: int, y0: int, x1: int, y1: int)
    requires x0 <= x1 && Abs(y1 - y0) <= x1 - x0
    ensures |PlotLineLow(x0, y0, x1, y1)| == x1 - x0
    ensures x0 < x1 ==> PlotLineLow(x0, y0, x1, y1)[0] == Point(x0, y0)
    ensures Run(PlotLineLow(x0, y0, x1, y1), x0, Min(y0, y1), Max(y0, y1))
  {
    var ni := Step(y1 - y0);
    var dMinor := Abs(y1 - y0);
    var w := PlotLineLow(x0, y0, x1, y1);
    WalkStaysNear(x0, y0, ni, x1 - x0, dMinor, x0, y0, 0, 2 * dMinor - (x1 - x0));
    WalkSteps(x0, x1, y0, ni, 2 * dMinor - (x1 - x0), x1 - x0, dMinor);
    forall j | 0 <= j < |w|
      ensures Min(y0, y1) <= w[j].y <= Max(y0, y1)
    {
      assert Within(y0, ni, dMinor, w[j].y);
    }
  }

  /** The steep helper is the shallow one on exchanged axes. */
  lemma HighIsSwappedLow(x0: int, y0: int, x1: int, y1: int)
    ensures SwapAxes(PlotLineHigh(x0, y0, x1, y1)) == PlotLineLow(y0, x0, y1, x1)
  {
    var w := PlotLineLow(y0, x0, y1, x1);
    assert SwapAxes(SwapAxes(w)) == w;
  }

  /** A sequence whose elements are pairwise different has as many
      distinct elements as it has entries. */
  lemma {:induction false} DistinctElements(s: seq<Point>)
    requires forall i, j :: 0 <= i < j < |s| ==> s[i] != s[j]
    ensures |Elements(s)| == |s|
  {
    if |s| > 0 {
      var tail := s[1..];
      DistinctElements(tail);
      assert Elements(s) == {s[0]} + Elements(tail) by {
        forall pt | pt in Elements(s) ensures pt in {s[0]} + Elements(tail) {
          var j :| 0 <= j < |s| && s[j] == pt;
          if j > 0 { assert tail[j - 1] == pt; }
        }
        forall pt | pt in Elements(tail) ensures pt in Elements(s) {
          var j :| 0 <= j < |tail| && tail[j] == pt;
          assert s[j + 1] == pt;
        }
      }
      forall j | 0 <= j < |tail| ensures tail[j] != s[0] {
        assert tail[j] == s[j + 1];
      }
    }
  }

  /** Both branches start from the endpoint with the smaller major
      coordinate, so swapping the arguments changes neither the order nor the
      set of cells. */
  lemma PlotLineSymmetric(p: Point, q: Point)
    ensures PlotLineOrder(p, q) == PlotLineOrder(q, p)
    ensures PlotLine(p, q) == PlotLine(q, p)
  {
    if !Shallow(p, q) && p.y == q.y {
      assert p == q;
    }
  }

  /** Equal endpoints take the steep branch, whose `range(y0, y0)` is empty. */
  lemma PlotLineOfOnePointIsEmpty(p: Point)
    ensures PlotLineOrder(p, p) == []
    ensures PlotLine(p, p) == {}
  {
  }

  /** The endpoint the shallow branch starts from, and the one it stops short of. */
  function LeftEnd(p: Point, q: Point): Point { if p.x < q.x then p else q }
  function RightEnd(p: Point, q: Point): Point { if p.x < q.x then q else p }
  /** The endpoint the steep branch starts from, and the one it stops short of. */
  function LowEnd(p: Point, q: Point): Point { if p.y < q.y then p else q }
  function HighEnd(p: Point, q: Point): Point { if p.y < q.y then q else p }

  /** The shallow case: one cell for every x in `[min x, max x)`, starting at
      the endpoint with the smaller x and never reaching the other one; every
      y stays between the endpoints' y values and moves by at most 1 per cell. */
  lemma ShallowLine(p: Point, q: Point)
    requires Shallow(p, q)
    ensures |PlotLineOrder(p, q)| == Abs(q.x - p.x)
    ensures PlotLineOrder(p, q)[0] == LeftEnd(p, q)
    ensures Run(PlotLineOrder(p, q), Min(p.x, q.x), Min(p.y, q.y), Max(p.y, q.y))
    ensures |PlotLine(p, q)| == Abs(q.x - p.x)
    ensures LeftEnd(p, q) in PlotLine(p, q)
    ensures RightEnd(p, q) !in PlotLine(p, q)
    ensures forall c :: c in PlotLine(p, q) ==> Min(p.x, q.x) <= c.x < Max(p.x, q.x)
  {
    var s := PlotLineOrder(p, q);
    var a := LeftEnd(p, q);
    var b := RightEnd(p, q);
    LowRun(a.x, a.y, b.x, b.y);
    assert s == PlotLineLow(a.x, a.y, b.x, b.y);
    DistinctElements(s);
    assert s[0] in PlotLine(p, q);
  }

  /** The steep case, with the axes exchanged: one cell for every y in
      `[min y, max y)`; every x stays between the endpoints' x values and
      moves by at most 1 per cell. */
  lemma SteepLine(p: Point, q: Point)
    requires !Shallow(p, q)
    ensures |PlotLineOrder(p, q)| == Abs(q.y - p.y)
    ensures p != q ==> PlotLineOrder(p, q)[0] == LowEnd(p, q)
    ensures Run(SwapAxes(PlotLineOrder(p, q)), Min(p.y, q.y), Min(p.x, q.x), Max(p.x, q.x))
    ensures |PlotLine(p, q)| == Abs(q.y - p.y)
    ensures p != q ==> LowEnd(p, q) in PlotLine(p, q)
    ensures HighEnd(p, q) !in PlotLine(p, q)
    ensures forall c :: c in PlotLine(p, q) ==> Min(p.y, q.y) <= c.y < Max(p.y, q.y)
  {
    var s := PlotLineOrder(p, q);
    var a := LowEnd(p, q);
    var b := HighEnd(p, q);
    LowRun(a.y, a.x, b.y, b.x);
    HighIsSwappedLow(a.x, a.y, b.x, b.y);
    assert s == PlotLineHigh(a.x, a.y, b.x, b.y);
    var w := SwapAxes(s);
    forall i, j | 0 <= i < j < |s| ensures s[i] != s[j] {
      assert w[i].x != w[j].x;
    }
    DistinctElements(s);
    if p != q {
      assert w[0] == Point(a.y, a.x);
      assert s[0] in PlotLine(p, q);
    }
    forall c | c in PlotLine(p, q) ensures Min(p.y, q.y) <= c.y < Max(p.y, q.y) {
      var j :| 0 <= j < |s| && s[j] == c;
      assert w[j].x == c.y;
    }
  }

  /** Successive cells in iteration order are 8-adjacent: one step on the
      major axis and at most one on the minor axis. */
  lemma PlotLineConnected(p: Point, q: Point)
    ensures forall j :: 0 <= j < |PlotLineOrder(p, q)| - 1 ==>
              Adjacent8(PlotLineOrder(p, q)[j], PlotLineOrder(p, q)[j + 1])
  {
    var s := PlotLineOrder(p, q);
    if Shallow(p, q) {
      ShallowLine(p, q);
    } else {
      SteepLine(p, q);
      var w := SwapAxes(s);
      forall j | 0 <= j < |s| - 1 ensures Adjacent8(s[j], s[j + 1]) {
        assert w[j + 1].y - w[j].y == s[j + 1].x - s[j].x;
      }
    }
  }
}
