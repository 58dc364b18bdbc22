/** Paint commands: where each says it paints, and where its ink falls. */
module DisplayList {
  import opened Basics
  import opened Geometry

  datatype Rgba = Rgba(r: nat, g: nat, b: nat, a: nat)

  datatype Stroke = Stroke(width: real, color: Rgba)

  datatype Dash = Solid | Dashed | Dotted

  datatype Stop = Stop(offset: real, color: Rgba)

  datatype Gradient = Linear(start: Point, end: Point, stops: seq<Stop>)
                    | Radial(center: Point, radiusX: real, radiusY: real, stops: seq<Stop>)

  datatype Cmd =
    | FillRect(rect: Rect, radii: Radii, fill: Rgba)
    | Outline(rect: Rect, radii: Radii, stroke: Stroke)
    | Line(a: Point, b: Point, stroke: Stroke, dash: Dash)
    | Circle(center: Point, radius: real, fill: Rgba, stroke: Stroke)
    | Text(origin: Point, width: real, height: real, text: string, font: nat, color: Rgba)
    | Image(image: nat, rect: Rect)
    | FillGradient(rect: Rect, gradient: Gradient)
    | PushClip(rect: Rect, radii: Radii)
    | PopClip

  function Bounds(cmd: Cmd): Option<Rect> {
    match cmd
    case FillRect(rect, _, _) => Some(rect.Expand(1.0))
    case Outline(rect, _, _) => Some(rect.Expand(1.0))
    case Image(_, rect) => Some(rect.Expand(1.0))
    case FillGradient(rect, _) => Some(rect.Expand(1.0))
    case Line(a, b, stroke, _) =>
      Some(Rect(Min(a.x, b.x), Min(a.y, b.y), Max(a.x, b.x), Max(a.y, b.y)).Expand(stroke.width + 1.0))
    case Circle(center, radius, _, stroke) =>
      var r := radius + stroke.width / 2.0 + 1.0;
      Some(Rect(center.x - r, center.y - r, center.x + r, center.y + r))
    case Text(origin, width, height, _, _, _) =>
      Some(Rect(origin.x, origin.y, origin.x + width, origin.y + height).Expand(2.0))
    case PushClip(_, _) => None
    case PopClip => None
  }

  // ----- ink -----

  function Times(a: real, b: real): real { a * b }

  function Along(a: Point, b: Point, t: real): Point { Point(a.x + Times(t, b.x - a.x), a.y + Times(t, b.y - a.y)) }

  /** A point of the pen centred on the segment's point at `t`. */
  predicate PenCovers(a: Point, b: Point, width: real, t: real, q: Point) {
    0.0 <= t <= 1.0 && Near(q, Along(a, b, t), width / 2.0)
  }

  function Square(x: real): real { x * x }

  function DistanceSquared(p: Point, q: Point): real { Square(p.x - q.x) + Square(p.y - q.y) }

  /** The ideal shape of each command. A pen is centred on the edge it follows; a
      text's glyphs stay inside the box it was measured to. */
  ghost predicate Shape(cmd: Cmd, q: Point) {
    match cmd
    case FillRect(rect, radii, _) => InRounded(rect, radii, q)
    case Outline(rect, radii, stroke) =>
      var half := stroke.width / 2.0;
      && stroke.width > 0.0
      && InRounded(rect.Expand(half), GrowAll(radii, half), q)
      && !InRounded(rect.Expand(-half), GrowAll(radii, -half), q)
    case Line(a, b, stroke, _) => stroke.width > 0.0 && exists t :: PenCovers(a, b, stroke.width, t, q)
    case Circle(center, radius, fill, stroke) =>
      || (fill.a > 0 && radius >= 0.0 && DistanceSquared(q, center) <= Square(radius))
      || (stroke.width > 0.0 && radius >= 0.0 && DistanceSquared(q, center) <= Square(radius + stroke.width / 2.0))
    case Text(origin, width, height, _, _, color) =>
      color.a > 0 && Rect(origin.x, origin.y, origin.x + width, origin.y + height).Contains(q)
    case Image(_, rect) => rect.Contains(q)
    case FillGradient(rect, _) => rect.Contains(q)
    case PushClip(_, _) => false
    case PopClip => false
  }

  /** Antialiasing spreads a shape by `bleed`. */
  ghost predicate Ink(cmd: Cmd, bleed: real, p: Point) { exists q :: Shape(cmd, q) && Near(p, q, bleed) }

  ghost predicate StaysInBounds(cmd: Cmd, bleed: real) {
    forall p :: Ink(cmd, bleed, p) ==> Bounds(cmd).Some? && Bounds(cmd).value.Contains(p)
  }

  lemma TimesIsNotNegative(a: real, b: real)
    requires a >= 0.0 && b >= 0.0
    ensures Times(a, b) >= 0.0
  {
  }

  lemma TimesOfParts(t: real, d: real)
    ensures Times(1.0 - t, d) == d - Times(t, d) && Times(t, -d) == -Times(t, d)
  {
  }

  lemma AlongIsBetween(a: real, b: real, t: real)
    requires 0.0 <= t <= 1.0
    ensures Min(a, b) <= a + Times(t, b - a) <= Max(a, b)
  {
    var d := if a <= b then b - a else a - b;
    TimesIsNotNegative(t, d);
    TimesIsNotNegative(1.0 - t, d);
    TimesOfParts(t, d);
  }

  lemma ProductPositive(a: real, b: real)
    requires a > 0.0 && b > 0.0
    ensures a * b > 0.0
  {
  }

  lemma SquaresGrow(a: real, b: real)
    requires 0.0 <= a < b
    ensures Square(a) < Square(b)
  {
    ProductPositive(b - a, b + a);
    assert (b - a) * (b + a) == b * b - a * a;
  }

  lemma SquareBounds(x: real, y: real, r: real)
    requires Square(x) + Square(y) <= Square(r) && r >= 0.0
    ensures -r <= x <= r
  {
    assert Square(y) >= 0.0 && Square(-x) == Square(x);
    if x > r {
      SquaresGrow(r, x);
    } else if x < -r {
      SquaresGrow(r, -x);
    }
  }

  lemma CircleStaysInBounds(cmd: Cmd, bleed: real, p: Point, q: Point)
    requires cmd.Circle? && cmd.stroke.width >= 0.0 && 0.0 <= bleed < 1.0
    requires Shape(cmd, q) && Near(p, q, bleed)
    ensures Bounds(cmd).value.Contains(p)
  {
    var dx, dy := q.x - cmd.center.x, q.y - cmd.center.y;
    var r := if DistanceSquared(q, cmd.center) <= Square(cmd.radius) then cmd.radius
        else cmd.radius + cmd.stroke.width / 2.0;
    SquareBounds(dx, dy, r);
    SquareBounds(dy, dx, r);
  }

  /** Along one axis, a point near the pen around `c` is inside the line's bounds. */
  lemma LineAxis(a: real, b: real, c: real, width: real, q: real, bleed: real, p: real)
    requires Min(a, b) <= c <= Max(a, b) && width > 0.0 && 0.0 <= bleed < 1.0
    requires c - width / 2.0 <= q <= c + width / 2.0 && q - bleed <= p <= q + bleed
    ensures Min(a, b) - (width + 1.0) <= p < Max(a, b) + (width + 1.0)
  {
  }

  lemma LinePointInBounds(cmd: Cmd, c: Point, bleed: real, p: Point, q: Point)
    requires cmd.Line? && cmd.stroke.width > 0.0 && 0.0 <= bleed < 1.0
    requires Min(cmd.a.x, cmd.b.x) <= c.x <= Max(cmd.a.x, cmd.b.x)
    requires Min(cmd.a.y, cmd.b.y) <= c.y <= Max(cmd.a.y, cmd.b.y)
    requires Near(q, c, cmd.stroke.width / 2.0) && Near(p, q, bleed)
    ensures Bounds(cmd).value.Contains(p)
  {
    LineAxis(cmd.a.x, cmd.b.x, c.x, cmd.stroke.width, q.x, bleed, p.x);
    LineAxis(cmd.a.y, cmd.b.y, c.y, cmd.stroke.width, q.y, bleed, p.y);
  }

  lemma LineStaysInBounds(cmd: Cmd, bleed: real, p: Point, q: Point)
    requires cmd.Line? && 0.0 <= bleed < 1.0
    requires Shape(cmd, q) && Near(p, q, bleed)
    ensures Bounds(cmd).value.Contains(p)
  {
    var t :| PenCovers(cmd.a, cmd.b, cmd.stroke.width, t, q);
    AlongIsBetween(cmd.a.x, cmd.b.x, t);
    AlongIsBetween(cmd.a.y, cmd.b.y, t);
    LinePointInBounds(cmd, Along(cmd.a, cmd.b, t), bleed, p, q);
  }

  /** Pens no thinner than zero, as layout produces them. */
  predicate PensAreReal(cmd: Cmd) { (cmd.Circle? || cmd.Outline? || cmd.Line?) ==> cmd.stroke.width >= 0.0 }

  /** An outline whose pen, or its spread, reaches more than the one pixel its bounds allow. */
  predicate PenReachesOut(cmd: Cmd, bleed: real) {
    cmd.Outline? && cmd.stroke.width > 0.0 && cmd.stroke.width / 2.0 + bleed > 1.0
  }

  /** Every command but a wide outline keeps its ink inside its bounds. */
  lemma InkStaysInBounds(cmd: Cmd, bleed: real)
    requires PensAreReal(cmd) && 0.0 <= bleed < 1.0 && !PenReachesOut(cmd, bleed)
    ensures StaysInBounds(cmd, bleed)
  {
    forall p | Ink(cmd, bleed, p) ensures Bounds(cmd).Some? && Bounds(cmd).value.Contains(p) {
      var q :| Shape(cmd, q) && Near(p, q, bleed);
      if cmd.Circle? {
        CircleStaysInBounds(cmd, bleed, p, q);
      } else if cmd.Line? {
        LineStaysInBounds(cmd, bleed, p, q);
      }
    }
  }

  /** Each corner radius takes at most half of either side, as CSS scales them. */
  predicate RadiiFit(rect: Rect, radii: Radii) {
    var (w, h) := (rect.Width() / 2.0, rect.Height() / 2.0);
    && 0.0 <= radii.topLeft.x <= w && 0.0 <= radii.topRight.x <= w
    && 0.0 <= radii.bottomRight.x <= w && 0.0 <= radii.bottomLeft.x <= w
    && 0.0 <= radii.topLeft.y <= h && 0.0 <= radii.topRight.y <= h
    && 0.0 <= radii.bottomRight.y <= h && 0.0 <= radii.bottomLeft.y <= h
  }

  /** The leftmost ink of an outline, halfway down. */
  function LeftmostInk(cmd: Cmd, bleed: real): Point
    requires cmd.Outline?
  {
    Point(cmd.rect.left - cmd.stroke.width / 2.0 - bleed, cmd.rect.Center().y)
  }

  lemma OutlineInksItsEdge(cmd: Cmd, bleed: real)
    requires cmd.Outline? && cmd.stroke.width > 0.0 && bleed >= 0.0
    requires cmd.rect.NonEmpty() && RadiiFit(cmd.rect, cmd.radii)
    ensures Ink(cmd, bleed, LeftmostInk(cmd, bleed))
  {
    var q := LeftmostInk(cmd, 0.0);
    assert Shape(cmd, q) && Near(LeftmostInk(cmd, bleed), q, bleed);
  }

  /** An outline's ink stays inside its bounds exactly when half its pen and the
      spread come to at most one pixel. */
  lemma OutlineStaysInBoundsIff(cmd: Cmd, bleed: real)
    requires cmd.Outline? && cmd.stroke.width > 0.0 && 0.0 <= bleed < 1.0
    requires cmd.rect.NonEmpty() && RadiiFit(cmd.rect, cmd.radii)
    ensures StaysInBounds(cmd, bleed) <==> cmd.stroke.width / 2.0 + bleed <= 1.0
  {
    if PenReachesOut(cmd, bleed) {
      OutlineInksItsEdge(cmd, bleed);
      assert !Bounds(cmd).value.Contains(LeftmostInk(cmd, bleed));
    } else {
      InkStaysInBounds(cmd, bleed);
    }
  }

  // ----- the bounds are no larger than they need be -----

  /** The box a command's shape is laid out in, and how far its bounds reach beyond:
      a pixel, a pen's width for a line, half of it for a circle, two pixels for a text. */
  function Box(cmd: Cmd): Option<(Rect, real)> {
    match cmd
    case FillRect(rect, _, _) => Some((rect, 1.0))
    case Outline(rect, _, _) => Some((rect, 1.0))
    case Image(_, rect) => Some((rect, 1.0))
    case FillGradient(rect, _) => Some((rect, 1.0))
    case Line(a, b, stroke, _) =>
      Some((Rect(if a.x < b.x then a.x else b.x, if a.y < b.y then a.y else b.y,
                 if a.x < b.x then b.x else a.x, if a.y < b.y then b.y else a.y), 1.0 + stroke.width))
    case Circle(center, radius, _, stroke) =>
      Some((Rect(center.x - radius, center.y - radius, center.x + radius, center.y + radius), 1.0 + stroke.width / 2.0))
    case Text(origin, width, height, _, _, _) =>
      Some((Rect(origin.x, origin.y, origin.x + width, origin.y + height), 2.0))
    case _ => None
  }

  /** The point is nearer to the box than `reach`, along each axis. */
  predicate Within(p: Point, box: Rect, reach: real) {
    box.left - reach <= p.x < box.right + reach && box.top - reach <= p.y < box.bottom + reach
  }

  /** A command's bounds hold exactly the points within reach of its box; clips have none. */
  lemma BoundsAreTight(cmd: Cmd)
    ensures Bounds(cmd).Some? <==> Box(cmd).Some?
    ensures Box(cmd).Some? ==>
              var (box, reach) := Box(cmd).value; forall p :: Bounds(cmd).value.Contains(p) <==> Within(p, box, reach)
  {
  }
}
