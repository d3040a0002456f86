/** Integer points and rectangles in image coordinates, after Qt's QPoint and QRect,
    and the normalisation of the rubber-band selection into a rectangle. */
module Geometry {

  datatype Point = Point(x: int, y: int)

  /** A QRect built from two corners: `right` and `bottom` are inclusive, so a rectangle
      whose corners coincide is one pixel wide and one pixel high. */
  datatype Rect = Rect(left: int, top: int, right: int, bottom: int) {
    function Width(): int { right - left + 1 }
    function Height(): int { bottom - top + 1 }
    function TopLeft(): Point { Point(left, top) }
    function BottomRight(): Point { Point(right, bottom) }

    /** Neither side is inverted. */
    predicate IsNormal() { left <= right && top <= bottom }

    predicate Contains(p: Point) { left <= p.x <= right && top <= p.y <= bottom }

    /** Every pixel of this rectangle lies in `outer`. */
    predicate Within(outer: Rect) {
      outer.left <= left && right <= outer.right && outer.top <= top && bottom <= outer.bottom
    }
  }

  /** The default-constructed QRect(): corners (0, 0) and (-1, -1), zero width and height. */
  const NullRect: Rect := Rect(0, 0, -1, -1)

  function Min(a: int, b: int): int { if a < b then a else b }
  function Max(a: int, b: int): int { if a < b then b else a }

  function Abs(a: int): int { if a < 0 then -a else a }

  /** The selection rectangle spanned by the two mapped drag points, whichever way the
      user dragged: its top-left corner takes the smaller coordinates and its
      bottom-right corner the larger ones. It is the smallest rectangle holding both
      points. */
  function SelectedRegion(a: Point, b: Point): (r: Rect)
    ensures r.IsNormal()
    ensures r.Contains(a) && r.Contains(b)
    ensures (r.left == a.x || r.left == b.x) && (r.right == a.x || r.right == b.x)
    ensures (r.top == a.y || r.top == b.y) && (r.bottom == a.y || r.bottom == b.y)
    ensures r.Width() == Abs(a.x - b.x) + 1 && r.Height() == Abs(a.y - b.y) + 1
  {
    Rect(Min(a.x, b.x), Min(a.y, b.y), Max(a.x, b.x), Max(a.y, b.y))
  }

  /** Any rectangle that holds both drag points holds the whole selection. */
  lemma SelectedRegionIsSmallest(a: Point, b: Point, q: Rect)
    requires q.Contains(a) && q.Contains(b)
    ensures SelectedRegion(a, b).Within(q)
  {
  }

  /** The order in which the two corners were dragged does not matter. */
  lemma SelectedRegionSymmetric(a: Point, b: Point)
    ensures SelectedRegion(a, b) == SelectedRegion(b, a)
  {
  }

  /** Selecting from the corners of a normal rectangle gives that rectangle back; since
      every selection is normal, normalising a selection a second time changes nothing. */
  lemma SelectedRegionOfNormal(r: Rect)
    requires r.IsNormal()
    ensures SelectedRegion(r.TopLeft(), r.BottomRight()) == r
  {
  }
}
