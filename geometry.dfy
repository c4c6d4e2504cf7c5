/**
 * The geometry kernel: points, integer block cells, axis-aligned boxes,
 * the closed-interval intersection test, the player's body box and the
 * squared distance used by the coarse prefilter.
 */
module Geometry {

  /** A world position with exact real coordinates. */
  datatype Vec3 = Vec3(x: real, y: real, z: real)

  /** An integer block cell; a block's location is its minimum corner. */
  datatype Cell = Cell(x: int, y: int, z: int)

  /** An axis-aligned box given by its minimum and maximum corners. */
  datatype Aabb = Aabb(min: Vec3, max: Vec3)

  function Corner(c: Cell): Vec3
  {
    Vec3(c.x as real, c.y as real, c.z as real)
  }

  function Add(a: Vec3, b: Vec3): Vec3
  {
    Vec3(a.x + b.x, a.y + b.y, a.z + b.z)
  }

  /** min <= max on every axis. */
  predicate WellFormed(b: Aabb)
  {
    b.min.x <= b.max.x && b.min.y <= b.max.y && b.min.z <= b.max.z
  }

  /** The point lies in the closed box. */
  predicate Inside(p: Vec3, b: Aabb)
  {
    && b.min.x <= p.x <= b.max.x
    && b.min.y <= p.y <= b.max.y
    && b.min.z <= p.z <= b.max.z
  }

  /** The source's overlap test: closed intervals on all three axes. */
  predicate Intersects(a: Aabb, b: Aabb)
  {
    && a.min.x <= b.max.x
    && a.max.x >= b.min.x
    && a.min.y <= b.max.y
    && a.max.y >= b.min.y
    && a.min.z <= b.max.z
    && a.max.z >= b.min.z
  }

  function Max(a: real, b: real): real
  {
    if a < b then b else a
  }

  lemma IntersectsSymmetric(a: Aabb, b: Aabb)
    ensures Intersects(a, b) <==> Intersects(b, a)
  {
  }

  lemma IntersectsReflexive(a: Aabb)
    requires WellFormed(a)
    ensures Intersects(a, a)
  {
  }

  /** Faces that only touch on the y axis still count as a hit. */
  lemma TouchingFacesIntersect(a: Aabb, b: Aabb)
    requires WellFormed(a) && WellFormed(b)
    requires a.max.y == b.min.y
    requires a.min.x <= b.max.x && b.min.x <= a.max.x
    requires a.min.z <= b.max.z && b.min.z <= a.max.z
    ensures Intersects(a, b)
  {
  }

  /**
   * Reference meaning of the test: two well-formed boxes intersect exactly
   * when some point lies in both of them.
   */
  lemma IntersectsIffCommonPoint(a: Aabb, b: Aabb)
    requires WellFormed(a) && WellFormed(b)
    ensures Intersects(a, b) <==> exists p :: Inside(p, a) && Inside(p, b)
  {
    if Intersects(a, b) {
      var p := Vec3(Max(a.min.x, b.min.x), Max(a.min.y, b.min.y), Max(a.min.z, b.min.z));
      assert Inside(p, a) && Inside(p, b);
    }
  }

  /**
   * The player's body: 0.6 wide on x and z, centred on the position, and
   * 1.8 tall standing on the feet position.
   */
  function PlayerBox(p: Vec3): (b: Aabb)
    ensures WellFormed(b) && Inside(p, b)
    ensures b.max.x - b.min.x == 0.6 && b.min.x + b.max.x == 2.0 * p.x
    ensures b.max.z - b.min.z == 0.6 && b.min.z + b.max.z == 2.0 * p.z
    ensures b.min.y == p.y && b.max.y - b.min.y == 1.8
  {
    Aabb(Vec3(p.x - 0.3, p.y, p.z - 0.3), Vec3(p.x + 0.3, p.y + 1.8, p.z + 0.3))
  }

  /** The maximum distance at which a block is tested against the player. */
  const CheckRadius: real := 2.5

  /** The square of the Euclidean distance between two positions. */
  function DistanceSquared(p: Vec3, q: Vec3): real
  {
    var dx, dy, dz := p.x - q.x, p.y - q.y, p.z - q.z;
    dx * dx + dy * dy + dz * dz
  }

  /** The prefilter: distance at most the check radius, boundary included. */
  predicate InCheckRange(p: Vec3, q: Vec3)
  {
    DistanceSquared(p, q) <= CheckRadius * CheckRadius
  }

  /**
   * Comparing squares is the same as comparing the square root: for the
   * non-negative d with d * d equal to the squared distance, the prefilter
   * passes exactly when d <= 2.5.
   */
  lemma InCheckRangeIffDistance(p: Vec3, q: Vec3, d: real)
    requires d >= 0.0 && d * d == DistanceSquared(p, q)
    ensures InCheckRange(p, q) <==> d <= CheckRadius
  {
    assert CheckRadius * CheckRadius == 6.25;
    if d > 2.5 {
      assert d * d > 2.5 * d > 6.25;
    } else {
      assert d * d <= 2.5 * d <= 6.25;
    }
  }

  /** A block exactly 2.5 away is still tested (the comparison is <=). */
  lemma CheckRangeBoundaryIncluded()
    ensures InCheckRange(Vec3(1.5, 2.0, 0.0), Corner(Cell(0, 0, 0)))
    ensures !InCheckRange(Vec3(1.5, 2.5, 0.0), Corner(Cell(0, 0, 0)))
  {
  }
}
