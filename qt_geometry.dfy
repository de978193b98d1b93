/** The integer geometry types of Qt used by the relay: points, sizes and
    rectangles. A rectangle is stored as Qt stores it, by its corners
    `(x1, y1)` and `(x2, y2)`, both inclusive, so its width is
    `x2 - x1 + 1`. Coordinates are unbounded here; the 32-bit range is a
    separate predicate where it matters. */
module QtGeometry {

  datatype Point = Point(x: int, y: int)

  datatype Size = Size(w: int, h: int)

  datatype Rect = Rect(x1: int, y1: int, x2: int, y2: int)
  {
    function Left(): int { x1 }
    function Top(): int { y1 }
    function Width(): int { x2 - x1 + 1 }
    function Height(): int { y2 - y1 + 1 }
    function TopLeft(): Point { Point(x1, y1) }
    function GetSize(): Size { Size(Width(), Height()) }
  }

  /** A default-constructed `QRect`: corners (0, 0) and (-1, -1), so its
      width and height are 0. */
  const NULL_RECT: Rect := Rect(0, 0, -1, -1)

  const INT32_MIN: int := -0x8000_0000
  const INT32_MAX: int := 0x7fff_ffff

  predicate InInt32(n: int) { INT32_MIN <= n <= INT32_MAX }

  /** `QRect(x, y, w, h)`. */
  function FromXYWH(x: int, y: int, w: int, h: int): (r: Rect)
    ensures r.Left() == x && r.Top() == y && r.Width() == w && r.Height() == h
  {
    Rect(x, y, x + w - 1, y + h - 1)
  }

  /** `QRect(topLeft, size)`. */
  function FromPointSize(p: Point, s: Size): (r: Rect)
    ensures r.TopLeft() == p && r.GetSize() == s
  {
    FromXYWH(p.x, p.y, s.w, s.h)
  }

  /** A rectangle is determined by its left, top, width and height. */
  lemma {:induction false} FromXYWHOfParts(r: Rect)
    ensures FromXYWH(r.Left(), r.Top(), r.Width(), r.Height()) == r
  {
  }

  /** `setTopLeft(p)` followed by `setSize(s)`: the rectangle moves to `p`
      and gets size `s`. */
  function MovedResized(r: Rect, p: Point, s: Size): (q: Rect)
    ensures q.TopLeft() == p && q.GetSize() == s
  {
    var moved := Rect(p.x, p.y, r.x2, r.y2);
    Rect(moved.x1, moved.y1, moved.x1 + s.w - 1, moved.y1 + s.h - 1)
  }

  /** `QRect::contains(QPoint)` (not proper): Qt 5 first normalises a
      rectangle whose width or height is negative. */
  predicate Contains(r: Rect, p: Point) {
    var (l, rt) := if r.x2 < r.x1 - 1 then (r.x2 + 1, r.x1 - 1) else (r.x1, r.x2);
    var (t, b) := if r.y2 < r.y1 - 1 then (r.y2 + 1, r.y1 - 1) else (r.y1, r.y2);
    l <= p.x <= rt && t <= p.y <= b
  }

  /** For a rectangle of non-negative size, containment is the inclusive
      corner test, and an empty rectangle contains no point. */
  lemma {:induction false} ContainsNonNegative(r: Rect, p: Point)
    requires r.Width() >= 0 && r.Height() >= 0
    ensures Contains(r, p) <==> r.x1 <= p.x <= r.x2 && r.y1 <= p.y <= r.y2
    ensures r.Width() == 0 || r.Height() == 0 ==> !Contains(r, p)
  {
  }
}
