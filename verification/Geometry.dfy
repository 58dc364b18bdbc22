/** Rectangles by their edges, and which points they hold. */
module Geometry {
  import opened Basics

  datatype Point = Point(x: real, y: real)

  datatype Radius = Radius(x: real, y: real)

  /** One radius per corner, clockwise from the top left. */
  datatype Radii = Radii(topLeft: Radius, topRight: Radius, bottomRight: Radius, bottomLeft: Radius)

  datatype Rect = Rect(left: real, top: real, right: real, bottom: real) {
    function Width(): real { right - left }

    function Height(): real { bottom - top }

    function Center(): Point { Point((left + right) / 2.0, (top + bottom) / 2.0) }

    predicate Contains(p: Point) { left <= p.x < right && top <= p.y < bottom }

    function Translate(x: real, y: real): Rect { Rect(left + x, top + y, right + x, bottom + y) }

    function Expand(d: real): Rect { Rect(left - d, top - d, right + d, bottom + d) }

    predicate Intersects(other: Rect) {
      left < other.right && right > other.left && top < other.bottom && bottom > other.top
    }

    function Intersect(other: Rect): Option<Rect> {
      var r := Rect(Max(left, other.left), Max(top, other.top), Min(right, other.right), Min(bottom, other.bottom));
      if r.Width() > 0.0 && r.Height() > 0.0 then Some(r) else None
    }

    predicate NonEmpty() { left < right && top < bottom }
  }

  /** `Rect::default()`. */
  const NO_RECT := Rect(0.0, 0.0, 0.0, 0.0)

  /** The intersection holds exactly the points both hold, and there is none
      exactly when they share no point. */
  lemma IntersectIsCommonPoints(a: Rect, b: Rect)
    ensures a.Intersect(b).Some? ==> forall p :: a.Intersect(b).value.Contains(p) <==> a.Contains(p) && b.Contains(p)
    ensures a.Intersect(b).Some? <==> exists p :: a.Contains(p) && b.Contains(p)
  {
    if a.Intersect(b).Some? {
      var r := a.Intersect(b).value;
      assert a.Contains(Point(r.left, r.top)) && b.Contains(Point(r.left, r.top));
    }
  }

  /** Two rectangles that hold points overlap exactly when they share one; an
      empty rectangle strictly inside another overlaps it without sharing any. */
  lemma OverlapIsCommonPoint(a: Rect, b: Rect)
    ensures (exists p :: a.Contains(p) && b.Contains(p)) ==> a.Intersects(b)
    ensures a.NonEmpty() && b.NonEmpty() ==> (a.Intersects(b) <==> exists p :: a.Contains(p) && b.Contains(p))
    ensures NO_RECT.Intersects(Rect(-1.0, -1.0, 1.0, 1.0)) && forall p :: !NO_RECT.Contains(p)
  {
    if a.NonEmpty() && b.NonEmpty() && a.Intersects(b) {
      assert a.Intersect(b).Some?;
      IntersectIsCommonPoints(a, b);
    }
  }

  /** `q` lies in a corner's box and outside its ellipse, `dx`, `dy` from its centre. */
  predicate CutCorner(dx: real, dy: real, r: Radius) {
    && dx > 0.0 && dy > 0.0 && r.x > 0.0 && r.y > 0.0
    && dx * r.y * (dx * r.y) + dy * r.x * (dy * r.x) > r.x * r.y * (r.x * r.y)
  }

  /** The points of a rectangle with elliptical corners. */
  predicate InRounded(rect: Rect, radii: Radii, q: Point) {
    && rect.Contains(q)
    && !CutCorner(rect.left + radii.topLeft.x - q.x, rect.top + radii.topLeft.y - q.y, radii.topLeft)
    && !CutCorner(q.x - (rect.right - radii.topRight.x), rect.top + radii.topRight.y - q.y, radii.topRight)
    && !CutCorner(q.x - (rect.right - radii.bottomRight.x), q.y - (rect.bottom - radii.bottomRight.y),
        radii.bottomRight)
    && !CutCorner(rect.left + radii.bottomLeft.x - q.x, q.y - (rect.bottom - radii.bottomLeft.y), radii.bottomLeft)
  }

  function Grow(r: Radius, d: real): Radius { Radius(Max(r.x + d, 0.0), Max(r.y + d, 0.0)) }

  function GrowAll(radii: Radii, d: real): Radii {
    Radii(Grow(radii.topLeft, d), Grow(radii.topRight, d), Grow(radii.bottomRight, d), Grow(radii.bottomLeft, d))
  }

  /** `p` is at most `m` from `q` along each axis. */
  predicate Near(p: Point, q: Point, m: real) { q.x - m <= p.x <= q.x + m && q.y - m <= p.y <= q.y + m }
}
