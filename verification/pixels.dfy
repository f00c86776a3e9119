/** Value types of the paint core: 8-bit RGBA colours, integer points,
    pygame-style rectangles and row-major pixel grids (`g[y][x]`). */
module Pixels {

  /** One 8-bit colour channel. */
  type Channel = c: int | 0 <= c <= 255

  datatype Color = Color(r: Channel, g: Channel, b: Channel, a: Channel)

  /** A row-major grid of colours: a surface's pixels, or a marker grid
      of the same shape. */
  type Image = seq<seq<Color>>

  /** The value a freshly created per-pixel-alpha surface holds. */
  const Transparent := Color(0, 0, 0, 0)

  datatype Point = Point(x: int, y: int) {
    /** This point expressed relative to `origin`. */
    function RelativeTo(origin: Point): Point {
      Point(x - origin.x, y - origin.y)
    }
  }

  /** An axis-aligned rectangle with pygame's conventions: (`x`, `y`) is the
      top-left corner, and the right and bottom edges are exclusive. */
  datatype Rect = Rect(x: int, y: int, w: nat, h: nat) {

    /** The centre as pygame reports it (`rect.center`). */
    function Center(): Point {
      Point(x + w / 2, y + h / 2)
    }

    predicate Contains(p: Point) {
      x <= p.x < x + w && y <= p.y < y + h
    }

    /** The same rectangle with its corner expressed relative to `origin`. */
    function RelativeTo(origin: Point): Rect {
      Rect(x - origin.x, y - origin.y, w, h)
    }
  }

  /** A square of side `side` placed the way assigning `rect.center = c`
      places it: the corner moves to `c - side / 2`. */
  function CenteredSquare(c: Point, side: nat): (r: Rect)
    ensures r.w == side && r.h == side
    ensures r.Center() == c
    ensures r.Contains(c) <==> side > 0
  {
    Rect(c.x - side / 2, c.y - side / 2, side, side)
  }

  /** Multiplying by a non-negative factor keeps the order. */
  lemma MulMonotone(a: int, b: int, c: int)
    requires a >= 0 && b <= c
    ensures a * b <= a * c
  {
    assert a * c - a * b == a * (c - b);
  }

  function Abs(n: int): nat {
    if n < 0 then -n else n
  }

  function Min(a: int, b: int): int {
    if a <= b then a else b
  }

  function Max(a: int, b: int): int {
    if a <= b then b else a
  }

  /** `g` has exactly `h` rows of exactly `w` cells each. */
  predicate IsGrid<T>(g: seq<seq<T>>, w: nat, h: nat) {
    |g| == h && forall j :: 0 <= j < h ==> |g[j]| == w
  }

  /** The cell (`x`, `y`) exists in `g`. */
  predicate InGrid<T>(g: seq<seq<T>>, x: int, y: int) {
    0 <= y < |g| && 0 <= x < |g[y]|
  }

  /** Two grids have the same row count and the same row lengths. */
  predicate SameShape<T, U>(a: seq<seq<T>>, b: seq<seq<U>>) {
    |a| == |b| && forall j :: 0 <= j < |a| ==> |a[j]| == |b[j]|
  }

  /** The width of a rectangular grid (its first row's length). */
  function Width<T>(g: seq<seq<T>>): nat {
    if |g| == 0 then 0 else |g[0]|
  }

  predicate Rectangular<T>(g: seq<seq<T>>) {
    IsGrid(g, Width(g), |g|)
  }

  /** The rectangle covering the whole grid (`surface.get_rect()`). */
  function FullRect<T>(g: seq<seq<T>>): (r: Rect)
    requires Rectangular(g)
    ensures IsGrid(g, r.w, r.h) && r.x == 0 && r.y == 0
  {
    Rect(0, 0, Width(g), |g|)
  }

  /** A `w` by `h` grid holding `v` everywhere (`surface.fill(v)`). */
  function Filled<T>(w: nat, h: nat, v: T): (g: seq<seq<T>>)
    ensures IsGrid(g, w, h)
    ensures forall j, i :: 0 <= j < h && 0 <= i < w ==> g[j][i] == v
  {
    seq(h, j => seq(w, i => v))
  }

  /** `g` with the single cell (`x`, `y`) replaced by `v`. */
  function SetCell<T>(g: seq<seq<T>>, x: int, y: int, v: T): (g': seq<seq<T>>)
    requires InGrid(g, x, y)
    ensures SameShape(g, g')
    ensures g'[y][x] == v
    ensures forall j, i :: InGrid(g, i, j) && (i != x || j != y) ==> g'[j][i] == g[j][i]
  {
    g[y := g[y][x := v]]
  }

  /** Two grids of the same shape that agree on every cell are equal. */
  lemma GridExtensionality<T>(a: seq<seq<T>>, b: seq<seq<T>>)
    requires SameShape(a, b)
    requires forall j, i :: InGrid(a, i, j) ==> a[j][i] == b[j][i]
    ensures a == b
  {
    forall j | 0 <= j < |a|
      ensures a[j] == b[j]
    {
      assert forall i :: 0 <= i < |a[j]| ==> a[j][i] == b[j][i] by {
        forall i | 0 <= i < |a[j]| ensures a[j][i] == b[j][i] {
          assert InGrid(a, i, j);
        }
      }
    }
  }
}
