/**
 * World-space geometry the hook uses for its pickup test: positions, the
 * engine's rectangle value, the corner-to-rectangle conversion of
 * Gancho.GetWorldRect and the overlap test of Gancho.IsOverlapping.
 * Coordinates are `real`: float rounding is not modelled.
 */
module Geometry {

  /** A world-space position (the engine's Vector3). */
  datatype Vec3 = Vec3(x: real, y: real, z: real)

  /** An axis-aligned rectangle given by its origin and its size (the engine's Rect). */
  datatype Rect = Rect(x: real, y: real, width: real, height: real)
  {
    /** The right edge. */
    function XMax(): real { x + width }

    /** The top edge. */
    function YMax(): real { y + height }
  }

  /**
   * The four world corners of a rectangle lying in the plane `z`, in the order
   * the engine's RectTransform.GetWorldCorners reports them: bottom-left,
   * top-left, top-right, bottom-right. The engine's code is not part of this
   * model; this order is the convention GetWorldRect relies on when it treats
   * corners 0 and 2 as opposite corners.
   */
  function CornersOf(r: Rect, z: real): (c: seq<Vec3>)
    ensures |c| == 4
    ensures c[0] == Vec3(r.x, r.y, z) && c[2] == Vec3(r.XMax(), r.YMax(), z)
  {
    [Vec3(r.x, r.y, z), Vec3(r.x, r.YMax(), z), Vec3(r.XMax(), r.YMax(), z), Vec3(r.XMax(), r.y, z)]
  }

  /** Four corners in the engine's order that span an axis-aligned rectangle in one plane. */
  predicate AxisAligned(c: seq<Vec3>)
    requires |c| == 4
  {
    c[1] == Vec3(c[0].x, c[2].y, c[0].z) &&
    c[3] == Vec3(c[2].x, c[0].y, c[0].z) &&
    c[2].z == c[0].z
  }

  /**
   * Gancho.GetWorldRect once the engine has filled the four-element corner
   * array: the origin is corner 0, the size is the difference between corner 2
   * and corner 0, so the far edges of the result are corner 2.
   */
  function GetWorldRect(corners: seq<Vec3>): (r: Rect)
    requires |corners| == 4
    ensures r.x == corners[0].x && r.y == corners[0].y
    ensures r.XMax() == corners[2].x && r.YMax() == corners[2].y
  {
    Rect(corners[0].x, corners[0].y, corners[2].x - corners[0].x, corners[2].y - corners[0].y)
  }

  /** Reading back the corners of any rectangle gives that rectangle. */
  lemma WorldRectOfCorners(r: Rect, z: real)
    ensures GetWorldRect(CornersOf(r, z)) == r
  {
  }

  /** Conversely, axis-aligned corners are exactly the corners of the rectangle read from them. */
  lemma CornersOfWorldRect(c: seq<Vec3>)
    requires |c| == 4 && AxisAligned(c)
    ensures CornersOf(GetWorldRect(c), c[0].z) == c
  {
  }

  function Max(a: real, b: real): real { if a < b then b else a }

  function Min(a: real, b: real): real { if a < b then a else b }

  /**
   * The engine's Rect.Overlaps (without inverted rectangles). Its source is not
   * part of this model: it is assumed to be the strict test that the
   * rectangles' extents intersect on both axes, so rectangles that only share
   * an edge do not overlap. For rectangles of positive size this says that
   * the intersection of their extents is non-empty on both axes.
   */
  function Overlaps(a: Rect, b: Rect): (r: bool)
    ensures a.width > 0.0 && a.height > 0.0 && b.width > 0.0 && b.height > 0.0 ==>
      (r <==> Max(a.x, b.x) < Min(a.XMax(), b.XMax()) && Max(a.y, b.y) < Min(a.YMax(), b.YMax()))
  {
    b.XMax() > a.x && b.x < a.XMax() && b.YMax() > a.y && b.y < a.YMax()
  }

  /** The point (px, py) lies strictly inside r. */
  predicate StrictlyInside(r: Rect, px: real, py: real)
  {
    r.x < px < r.XMax() && r.y < py < r.YMax()
  }

  /**
   * For rectangles of positive size the assumed overlap test means what its
   * name says: some point lies strictly inside both.
   */
  lemma OverlapsIffCommonInteriorPoint(a: Rect, b: Rect)
    requires a.width > 0.0 && a.height > 0.0 && b.width > 0.0 && b.height > 0.0
    ensures Overlaps(a, b) <==> exists px, py :: StrictlyInside(a, px, py) && StrictlyInside(b, px, py)
  {
    if Overlaps(a, b) {
      var px := (Max(a.x, b.x) + Min(a.XMax(), b.XMax())) / 2.0;
      var py := (Max(a.y, b.y) + Min(a.YMax(), b.YMax())) / 2.0;
      assert StrictlyInside(a, px, py) && StrictlyInside(b, px, py);
    }
  }

  /**
   * Gancho.IsOverlapping: the world rectangles of two RectTransforms, read
   * from their corners, overlap. Stated on the corners: each rectangle's first
   * corner lies strictly before the other's opposite corner on both axes.
   */
  function IsOverlapping(rect1: seq<Vec3>, rect2: seq<Vec3>): (r: bool)
    requires |rect1| == 4 && |rect2| == 4
    ensures r <==> rect1[0].x < rect2[2].x && rect2[0].x < rect1[2].x &&
                   rect1[0].y < rect2[2].y && rect2[0].y < rect1[2].y
  {
    Overlaps(GetWorldRect(rect1), GetWorldRect(rect2))
  }
}
