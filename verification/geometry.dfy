/**
 Integer screen geometry used by the overlay: pointer positions and the
 axis-aligned rectangles that rectangle gestures commit.
 */
module Geometry {

  /** A pixel position in overlay coordinates (a QPoint); the default point is the origin. */
  datatype Point = Point(x: int, y: int)

  const Origin: Point := Point(0, 0)

  /** An axis-aligned rectangle: top-left corner, width and height (QRect's four-integer form). */
  datatype Rect = Rect(x: int, y: int, w: int, h: int)

  function Min(a: int, b: int): int { if a <= b then a else b }

  function Abs(a: int): nat { if a < 0 then -a else a }

  /** The rectangle spanned by a drag from `start` to `end`, in whichever direction it was made.
      Its left and right edges are exactly the two x coordinates, its top and bottom edges
      exactly the two y coordinates, so its extent is never negative. */
  function GetRect(start: Point, end: Point): (r: Rect)
    ensures r.w >= 0 && r.h >= 0
    ensures {r.x, r.x + r.w} == {start.x, end.x}
    ensures {r.y, r.y + r.h} == {start.y, end.y}
  {
    Rect(Min(start.x, end.x), Min(start.y, end.y), Abs(start.x - end.x), Abs(start.y - end.y))
  }

  /** True when `p` lies on the closed extent of `r`. */
  predicate Covers(r: Rect, p: Point) {
    r.x <= p.x <= r.x + r.w && r.y <= p.y <= r.y + r.h
  }

  /** Drag direction does not matter: swapping the two ends yields the same rectangle. */
  lemma GetRectSymmetric(a: Point, b: Point)
    ensures GetRect(a, b) == GetRect(b, a)
  {
    var r, q := GetRect(a, b), GetRect(b, a);
    assert r.x == q.x && r.y == q.y;
  }

  /** The normalised rectangle is the smallest one holding both ends of the drag:
      it covers both, and every rectangle covering both contains it. */
  lemma GetRectIsBoundingBox(a: Point, b: Point, other: Rect)
    ensures Covers(GetRect(a, b), a) && Covers(GetRect(a, b), b)
    ensures Covers(other, a) && Covers(other, b) ==>
              other.x <= GetRect(a, b).x && GetRect(a, b).x + GetRect(a, b).w <= other.x + other.w
              && other.y <= GetRect(a, b).y && GetRect(a, b).y + GetRect(a, b).h <= other.y + other.h
  {
  }

  /** A drag from (100,100) up and left to (40,40) gives the 60-by-60 rectangle at (40,40). */
  lemma GetRectBackwardDrag()
    ensures GetRect(Point(100, 100), Point(40, 40)) == Rect(40, 40, 60, 60)
  {
  }
}
