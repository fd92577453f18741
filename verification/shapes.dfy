/**
 * Bounding shapes: axis-aligned rectangles and circles given by their centre,
 * with overlap tests between points, rectangles and circles. The geometry is
 * stated on values (`Region`); the shape objects hold a mutable centre
 * (`Vector2`) and mutable sizes, as the framework's classes do.
 */
module Shapes {

  /** A mutable 2-D vector. */
  class Vector2 {
    var x: real
    var y: real

    constructor (x: real, y: real)
      ensures this.x == x && this.y == y
    {
      this.x, this.y := x, y;
    }

    /** set(x, y). */
    method SetXY(x: real, y: real)
      modifies this
      ensures this.x == x && this.y == y
    {
      this.x, this.y := x, y;
    }

    /** set(vector): copies the coordinates of v (a no-op when v is this vector). */
    method Set(v: Vector2)
      modifies this
      ensures x == old(v.x) && y == old(v.y)
    {
      x, y := v.x, v.y;
    }
  }

  function Abs(a: real): real {
    if a < 0.0 then -a else a
  }

  /** distanceSquared: the squared Euclidean distance, without a square root. */
  function DistanceSquared(x1: real, y1: real, x2: real, y2: real): (d: real)
    ensures 0.0 <= d
  {
    SquareNonNegative(x1 - x2);
    SquareNonNegative(y1 - y2);
    (x1 - x2) * (x1 - x2) + (y1 - y2) * (y1 - y2)
  }

  lemma SquareNonNegative(a: real)
    ensures 0.0 <= a * a
  {
    if a < 0.0 {
      assert a * a == (-a) * (-a);
    }
  }

  /** Squaring is monotone on magnitudes. */
  lemma SquareMonotone(a: real, b: real)
    requires Abs(a) <= Abs(b)
    ensures a * a <= b * b
  {
    var p, q := Abs(a), Abs(b);
    assert a * a == p * p && b * b == q * q;
    assert p * p <= p * q <= q * q;
  }

  /** The geometry of a shape: a rectangle by centre and size, a circle by centre and radius, or a shape kind the framework does not implement. */
  datatype Region =
    | Box(x: real, y: real, w: real, h: real)
    | Disc(x: real, y: real, r: real)
    | Unknown

  /** The point of [lo, hi] closest to c, computed with the comparisons of the overlap code. */
  function Closest(c: real, lo: real, hi: real): (r: real)
    ensures lo <= hi ==> lo <= r <= hi
    ensures lo <= c <= hi ==> r == c
  {
    if c <= lo then lo else if c >= hi then hi else c
  }

  /** Within [lo, hi] no point is nearer to c than Closest(c, lo, hi). */
  lemma ClosestIsNearest(c: real, lo: real, hi: real, p: real)
    requires lo <= p <= hi
    ensures (c - Closest(c, lo, hi)) * (c - Closest(c, lo, hi)) <= (c - p) * (c - p)
  {
    SquareMonotone(c - Closest(c, lo, hi), c - p);
  }

  /** BoundingRectangle.overlap(point): closed ranges on both axes. */
  function RectContains(b: Region, px: real, py: real): (r: bool)
    requires b.Box?
    ensures r <==> Abs(px - b.x) <= b.w / 2.0 && Abs(py - b.y) <= b.h / 2.0
  {
    b.x - b.w / 2.0 <= px && b.x + b.w / 2.0 >= px && b.y - b.h / 2.0 <= py && b.y + b.h / 2.0 >= py
  }

  /** BoundingRectangle.overlap(rect): the closed ranges intersect on both axes. */
  function RectsOverlap(a: Region, b: Region): (r: bool)
    requires a.Box? && b.Box?
    ensures r <==> Abs(a.x - b.x) <= (a.w + b.w) / 2.0 && Abs(a.y - b.y) <= (a.h + b.h) / 2.0
  {
    a.x - a.w / 2.0 <= b.x + b.w / 2.0 && a.x + a.w / 2.0 >= b.x - b.w / 2.0
    && a.y - a.h / 2.0 <= b.y + b.h / 2.0 && a.y + a.h / 2.0 >= b.y - b.h / 2.0
  }

  /** For rectangles of non-negative size, overlapping means sharing a point. */
  lemma RectsOverlapMeansCommonPoint(a: Region, b: Region)
    requires a.Box? && b.Box? && 0.0 <= a.w && 0.0 <= a.h && 0.0 <= b.w && 0.0 <= b.h
    ensures RectsOverlap(a, b) <==> exists px, py :: RectContains(a, px, py) && RectContains(b, px, py)
  {
    if RectsOverlap(a, b) {
      var px := if a.x - a.w / 2.0 <= b.x - b.w / 2.0 then b.x - b.w / 2.0 else a.x - a.w / 2.0;
      var py := if a.y - a.h / 2.0 <= b.y - b.h / 2.0 then b.y - b.h / 2.0 else a.y - a.h / 2.0;
      assert RectContains(a, px, py) && RectContains(b, px, py);
    }
  }

  /** BoundingCircle.overlap(point): within the radius of the centre. */
  function CircleContains(c: Region, px: real, py: real): bool
    requires c.Disc?
  {
    DistanceSquared(c.x, c.y, px, py) <= c.r * c.r
  }

  /** BoundingCircle.overlap(circle): centres at most the sum of the radii apart. */
  function CirclesOverlap(a: Region, b: Region): bool
    requires a.Disc? && b.Disc?
  {
    DistanceSquared(a.x, a.y, b.x, b.y) <= (a.r + b.r) * (a.r + b.r)
  }

  /** A circle with a non-negative radius contains its centre, and any circle overlaps itself. */
  lemma CircleContainsCentre(c: Region)
    requires c.Disc?
    ensures CircleContains(c, c.x, c.y) && CirclesOverlap(c, c)
  {
    SquareNonNegative(c.r);
    SquareNonNegative(c.r + c.r);
  }

  /** Circle overlap does not depend on which circle asks. */
  lemma CirclesOverlapSymmetric(a: Region, b: Region)
    requires a.Disc? && b.Disc?
    ensures CirclesOverlap(a, b) == CirclesOverlap(b, a)
  {
    assert (a.x - b.x) * (a.x - b.x) == (b.x - a.x) * (b.x - a.x);
    assert (a.y - b.y) * (a.y - b.y) == (b.y - a.y) * (b.y - a.y);
    assert (a.r + b.r) * (a.r + b.r) == (b.r + a.r) * (b.r + a.r);
  }

  /** The point of rectangle b closest to the centre of circle c. */
  function ClosestX(c: Region, b: Region): real
    requires c.Disc? && b.Box?
  {
    Closest(c.x, b.x - b.w / 2.0, b.x + b.w / 2.0)
  }

  function ClosestY(c: Region, b: Region): real
    requires c.Disc? && b.Box?
  {
    Closest(c.y, b.y - b.h / 2.0, b.y + b.h / 2.0)
  }

  /**
   * BoundingCircle.overlap(rect): the point of the rectangle closest to the
   * circle's centre lies within the radius of that centre. A centre inside the
   * rectangle always overlaps.
   */
  function CircleRectOverlap(c: Region, b: Region): (r: bool)
    requires c.Disc? && b.Box?
    ensures RectContains(b, c.x, c.y) ==> r
  {
    SquareNonNegative(c.r);
    DistanceSquared(c.x, c.y, ClosestX(c, b), ClosestY(c, b)) <= c.r * c.r
  }

  /**
   * For a rectangle of non-negative size, circle and rectangle overlap exactly
   * when some point of the rectangle lies within the circle.
   */
  lemma CircleRectOverlapMeansCommonPoint(c: Region, b: Region)
    requires c.Disc? && b.Box? && 0.0 <= b.w && 0.0 <= b.h
    ensures CircleRectOverlap(c, b) <==> exists px, py :: RectContains(b, px, py) && CircleContains(c, px, py)
  {
    var qx, qy := ClosestX(c, b), ClosestY(c, b);
    if CircleRectOverlap(c, b) {
      assert RectContains(b, qx, qy) && CircleContains(c, qx, qy);
    }
    forall px, py | RectContains(b, px, py) && CircleContains(c, px, py) ensures CircleRectOverlap(c, b) {
      NearestPointOfRect(c, b, px, py);
    }
  }

  /** No point of the rectangle is nearer to the circle's centre than the closest point. */
  lemma NearestPointOfRect(c: Region, b: Region, px: real, py: real)
    requires c.Disc? && b.Box? && RectContains(b, px, py)
    ensures DistanceSquared(c.x, c.y, ClosestX(c, b), ClosestY(c, b)) <= DistanceSquared(c.x, c.y, px, py)
  {
    ClosestIsNearest(c.x, b.x - b.w / 2.0, b.x + b.w / 2.0, px);
    ClosestIsNearest(c.y, b.y - b.h / 2.0, b.y + b.h / 2.0, py);
  }

  /**
   * BoundingRectangle.overlap(circle) as written: the closest point is found
   * as in the circle's test, but its distance is measured from the rectangle's
   * own centre instead of the circle's.
   */
  function RectCircleOverlapAsWritten(b: Region, c: Region): bool
    requires b.Box? && c.Disc?
  {
    DistanceSquared(b.x, b.y, ClosestX(c, b), ClosestY(c, b)) <= c.r * c.r
  }

  /**
   * A unit circle ten units right of a 2-by-2 square at the origin is far
   * from it, yet the test as written reports an overlap, and the circle's
   * own test disagrees with it.
   */
  lemma RectCircleAsWrittenDisagrees()
    ensures RectCircleOverlapAsWritten(Box(0.0, 0.0, 2.0, 2.0), Disc(10.0, 0.0, 1.0))
    ensures !CircleRectOverlap(Disc(10.0, 0.0, 1.0), Box(0.0, 0.0, 2.0, 2.0))
    ensures !exists px, py :: RectContains(Box(0.0, 0.0, 2.0, 2.0), px, py) && CircleContains(Disc(10.0, 0.0, 1.0), px, py)
  {
    CircleRectOverlapMeansCommonPoint(Disc(10.0, 0.0, 1.0), Box(0.0, 0.0, 2.0, 2.0));
  }

  /** BoundingRectangle.overlap(circle), corrected: the circle's own test, from the circle's centre. */
  function RectCircleOverlap(b: Region, c: Region): (r: bool)
    requires b.Box? && c.Disc?
    ensures r == CircleRectOverlap(c, b)
  {
    DistanceSquared(c.x, c.y, ClosestX(c, b), ClosestY(c, b)) <= c.r * c.r
  }

  /**
   * overlap(shape) as the program runs it: rectangles dispatch to
   * overlap(rect) and to overlap(circle) as written, circles to
   * overlap(circle) and overlap(rect); any other pairing is false.
   */
  function Overlap(a: Region, b: Region): bool {
    match (a, b)
    case (Box(_, _, _, _), Box(_, _, _, _)) => RectsOverlap(a, b)
    case (Box(_, _, _, _), Disc(_, _, _)) => RectCircleOverlapAsWritten(a, b)
    case (Disc(_, _, _), Disc(_, _, _)) => CirclesOverlap(a, b)
    case (Disc(_, _, _), Box(_, _, _, _)) => CircleRectOverlap(a, b)
    case _ => false
  }

  /** overlap(shape) with the corrected rectangle-circle test. */
  function OverlapCorrected(a: Region, b: Region): bool {
    match (a, b)
    case (Box(_, _, _, _), Box(_, _, _, _)) => RectsOverlap(a, b)
    case (Box(_, _, _, _), Disc(_, _, _)) => RectCircleOverlap(a, b)
    case (Disc(_, _, _), Disc(_, _, _)) => CirclesOverlap(a, b)
    case (Disc(_, _, _), Box(_, _, _, _)) => CircleRectOverlap(a, b)
    case _ => false
  }

  /**
   * The dispatch as written agrees with the corrected one except when a
   * rectangle asks about a circle, and there it can answer differently
   * from the circle asking about the rectangle.
   */
  lemma OverlapAsWrittenAsymmetric()
    ensures forall a: Region, b: Region :: !(a.Box? && b.Disc?) ==> Overlap(a, b) == OverlapCorrected(a, b)
    ensures Overlap(Box(0.0, 0.0, 2.0, 2.0), Disc(10.0, 0.0, 1.0))
    ensures !Overlap(Disc(10.0, 0.0, 1.0), Box(0.0, 0.0, 2.0, 2.0))
  {
    RectCircleAsWrittenDisagrees();
  }

  /** With the corrected rectangle-circle test, overlap(shape) is symmetric. */
  lemma OverlapSymmetric(a: Region, b: Region)
    ensures OverlapCorrected(a, b) == OverlapCorrected(b, a)
  {
    if a.Disc? && b.Disc? {
      CirclesOverlapSymmetric(a, b);
    }
  }

  /** The same region with its centre moved to (x, y). */
  function MovedTo(g: Region, x: real, y: real): (m: Region)
    ensures m.Box? == g.Box? && m.Disc? == g.Disc?
  {
    match g
    case Box(_, _, w, h) => Box(x, y, w, h)
    case Disc(_, _, r) => Disc(x, y, r)
    case Unknown => Unknown
  }

  /** A rectangle, at its centre position. */
  class BoundingRectangle {
    const position: Vector2
    var width: real
    var height: real

    constructor (x: real, y: real, width: real, height: real)
      ensures Geometry() == Box(x, y, width, height) && fresh(position)
    {
      position := new Vector2(x, y);
      this.width, this.height := width, height;
    }

    /** The constructor taking a position copies it into a vector of its own. */
    constructor FromPosition(p: Vector2, width: real, height: real)
      ensures Geometry() == Box(p.x, p.y, width, height) && fresh(position)
    {
      position := new Vector2(p.x, p.y);
      this.width, this.height := width, height;
    }

    function Geometry(): (g: Region)
      reads this, position
      ensures g.Box?
    {
      Box(position.x, position.y, width, height)
    }

    method SetWidth(width: real)
      modifies this
      ensures Geometry() == Box(old(position.x), old(position.y), width, old(this.height))
    {
      this.width := width;
    }

    method SetHeight(height: real)
      modifies this
      ensures Geometry() == Box(old(position.x), old(position.y), old(this.width), height)
    {
      this.height := height;
    }
  }

  /** A circle, at its centre position. */
  class BoundingCircle {
    const position: Vector2
    var radius: real

    constructor (x: real, y: real, radius: real)
      ensures Geometry() == Disc(x, y, radius) && fresh(position)
    {
      position := new Vector2(x, y);
      this.radius := radius;
    }

    /** The constructor taking a position copies it into a vector of its own. */
    constructor FromPosition(p: Vector2, radius: real)
      ensures Geometry() == Disc(p.x, p.y, radius) && fresh(position)
    {
      position := new Vector2(p.x, p.y);
      this.radius := radius;
    }

    function Geometry(): (g: Region)
      reads this, position
      ensures g.Disc?
    {
      Disc(position.x, position.y, radius)
    }

    method SetRadius(radius: real)
      modifies this
      ensures Geometry() == Disc(old(position.x), old(position.y), radius)
    {
      this.radius := radius;
    }
  }

  /** A bounding shape of either kind, or of a kind the framework does not implement. */
  datatype Shape =
    | RectShape(rect: BoundingRectangle)
    | CircleShape(circle: BoundingCircle)
    | OtherShape(centre: Vector2)

  /** The objects a shape's geometry depends on. */
  function Footprint(s: Shape): set<object> {
    match s
    case RectShape(b) => {b, b.position}
    case CircleShape(c) => {c, c.position}
    case OtherShape(p) => {p}
  }

  function GeometryOf(s: Shape): Region
    reads Footprint(s)
  {
    match s
    case RectShape(b) => b.Geometry()
    case CircleShape(c) => c.Geometry()
    case OtherShape(_) => Unknown
  }

  /** getPosition(): the shape's own position vector, not a copy. */
  function GetPosition(s: Shape): (p: Vector2)
    ensures p in Footprint(s)
  {
    match s
    case RectShape(b) => b.position
    case CircleShape(c) => c.position
    case OtherShape(p) => p
  }

  /** setPosition(v): copies v's coordinates into the shape's position. */
  method SetPosition(s: Shape, v: Vector2)
    requires !s.OtherShape?
    modifies GetPosition(s)
    ensures GeometryOf(s) == MovedTo(old(GeometryOf(s)), old(v.x), old(v.y))
  {
    GetPosition(s).Set(v);
  }

  /** Because setPosition copies, moving v afterwards does not move the shape. */
  method SetPositionThenMoveSource(s: Shape, v: Vector2, x: real, y: real)
    requires !s.OtherShape? && v != GetPosition(s)
    modifies GetPosition(s), v
    ensures GeometryOf(s) == MovedTo(old(GeometryOf(s)), old(v.x), old(v.y))
  {
    SetPosition(s, v);
    v.SetXY(x, y);
  }

  /** Because getPosition returns the shape's own vector, moving that vector moves the shape. */
  method MoveThroughPosition(s: Shape, x: real, y: real)
    requires !s.OtherShape?
    modifies GetPosition(s)
    ensures GeometryOf(s) == MovedTo(old(GeometryOf(s)), x, y)
  {
    var p := GetPosition(s);
    p.SetXY(x, y);
  }

  /**
   * overlap(collection): whether `s`, asking with overlap(shape) as written,
   * overlaps some shape of the collection; the loop stops at the first.
   */
  method OverlapAny(s: Shape, shapes: seq<Shape>) returns (r: bool)
    ensures r <==> exists i :: 0 <= i < |shapes| && Overlap(GeometryOf(s), GeometryOf(shapes[i]))
  {
    var i := 0;
    while i < |shapes|
      invariant 0 <= i <= |shapes|
      invariant forall j :: 0 <= j < i ==> !Overlap(GeometryOf(s), GeometryOf(shapes[j]))
    {
      if Overlap(GeometryOf(s), GeometryOf(shapes[i])) {
        return true;
      }
      i := i + 1;
    }
    return false;
  }
}
