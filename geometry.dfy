/** Axis-aligned bounding box of a set of points, in exact real arithmetic.

    The add-on takes the eight world-space corners of an object's bound box,
    reduces them per axis with `min` and `max`, and derives a centre
    `(min + max) / 2` and a size `max - min`.  Here coordinates are `real`,
    so the midpoint and half-size facts hold exactly; with the floats the
    host uses they hold only up to rounding. */
module Geometry {

  datatype Axis = X | Y | Z

  datatype Vec3 = Vec3(x: real, y: real, z: real) {

    /** The coordinate on axis `a`. */
    function At(a: Axis): real {
      match a
      case X => x
      case Y => y
      case Z => z
    }

    function Plus(v: Vec3): (r: Vec3)
      ensures forall a :: r.At(a) == At(a) + v.At(a)
    {
      Vec3(x + v.x, y + v.y, z + v.z)
    }

    function Minus(v: Vec3): (r: Vec3)
      ensures forall a :: r.At(a) == At(a) - v.At(a)
    {
      Vec3(x - v.x, y - v.y, z - v.z)
    }

    /** Component-wise division by a non-zero scalar. */
    function Div(k: real): (r: Vec3)
      requires k != 0.0
      ensures forall a :: r.At(a) * k == At(a)
    {
      Vec3(x / k, y / k, z / k)
    }
  }

  /** The coordinates of `points` on one axis, in order: one row of
      `zip(*points)`. */
  function Column(points: seq<Vec3>, a: Axis): (c: seq<real>)
    ensures |c| == |points|
    ensures forall i :: 0 <= i < |c| ==> c[i] == points[i].At(a)
  {
    seq(|points|, i requires 0 <= i < |points| => points[i].At(a))
  }

  /** Python's `min` over a non-empty sequence: a left-to-right scan that
      replaces the running value when a strictly smaller element appears.
      The result is a lower bound of every element and is one of them. */
  function MinOf(xs: seq<real>): (m: real)
    requires |xs| > 0
    ensures forall i :: 0 <= i < |xs| ==> m <= xs[i]
    ensures exists i :: 0 <= i < |xs| && xs[i] == m
  {
    if |xs| == 1 then xs[0]
    else
      var prefix := MinOf(xs[..|xs| - 1]);
      assert forall i :: 0 <= i < |xs| - 1 ==> xs[..|xs| - 1][i] == xs[i];
      if xs[|xs| - 1] < prefix then xs[|xs| - 1] else prefix
  }

  /** Python's `max` over a non-empty sequence, mirror image of `MinOf`. */
  function MaxOf(xs: seq<real>): (m: real)
    requires |xs| > 0
    ensures forall i :: 0 <= i < |xs| ==> xs[i] <= m
    ensures exists i :: 0 <= i < |xs| && xs[i] == m
  {
    if |xs| == 1 then xs[0]
    else
      var prefix := MaxOf(xs[..|xs| - 1]);
      assert forall i :: 0 <= i < |xs| - 1 ==> xs[..|xs| - 1][i] == xs[i];
      if xs[|xs| - 1] > prefix then xs[|xs| - 1] else prefix
  }

  /** An axis-aligned box given by its two extreme corners. */
  datatype Box = Box(lo: Vec3, hi: Vec3) {

    /** True when `p` lies inside the box (faces included). */
    predicate Contains(p: Vec3) {
      forall a :: lo.At(a) <= p.At(a) <= hi.At(a)
    }

    /** `(min_corner + max_corner) / 2`. */
    function Center(): (c: Vec3)
      ensures forall a :: c.At(a) - lo.At(a) == hi.At(a) - c.At(a)
    {
      lo.Plus(hi).Div(2.0)
    }

    /** `max_corner - min_corner`. */
    function Size(): (s: Vec3)
      ensures forall a :: lo.At(a) + s.At(a) == hi.At(a)
    {
      hi.Minus(lo)
    }
  }

  /** True when every point of `points` lies in `b`. */
  predicate Encloses(b: Box, points: seq<Vec3>) {
    forall i :: 0 <= i < |points| ==> b.Contains(points[i])
  }

  /** `Vector(map(min, zip(*points)))`: on every axis, a coordinate no
      point goes below and that some point has. */
  function MinCorner(points: seq<Vec3>): (v: Vec3)
    requires |points| > 0
    ensures forall a, i :: 0 <= i < |points| ==> v.At(a) <= points[i].At(a)
    ensures forall a :: exists i :: 0 <= i < |points| && points[i].At(a) == v.At(a)
    ensures forall a :: v.At(a) == MinOf(Column(points, a))
  {
    Vec3(MinOf(Column(points, X)), MinOf(Column(points, Y)), MinOf(Column(points, Z)))
  }

  /** `Vector(map(max, zip(*points)))`: on every axis, a coordinate no
      point goes above and that some point has. */
  function MaxCorner(points: seq<Vec3>): (v: Vec3)
    requires |points| > 0
    ensures forall a, i :: 0 <= i < |points| ==> points[i].At(a) <= v.At(a)
    ensures forall a :: exists i :: 0 <= i < |points| && points[i].At(a) == v.At(a)
    ensures forall a :: v.At(a) == MaxOf(Column(points, a))
  {
    Vec3(MaxOf(Column(points, X)), MaxOf(Column(points, Y)), MaxOf(Column(points, Z)))
  }

  /** The box spanned by the per-axis minima and maxima of `points`: it
      encloses every point, and on each axis both of its faces are touched
      by some point, so `lo <= hi` component-wise. */
  function BoundingBox(points: seq<Vec3>): (b: Box)
    requires |points| > 0
    ensures Encloses(b, points)
    ensures forall a :: exists i :: 0 <= i < |points| && points[i].At(a) == b.lo.At(a)
    ensures forall a :: exists i :: 0 <= i < |points| && points[i].At(a) == b.hi.At(a)
  {
    Box(MinCorner(points), MaxCorner(points))
  }

  /** The bounding box is the smallest box enclosing the points: any box
      that encloses them contains both of its corners. */
  lemma BoundingBoxIsSmallest(points: seq<Vec3>, other: Box)
    requires |points| > 0
    requires Encloses(other, points)
    ensures other.Contains(BoundingBox(points).lo)
    ensures other.Contains(BoundingBox(points).hi)
  {
    var b := BoundingBox(points);
    forall a ensures other.lo.At(a) <= b.lo.At(a) <= other.hi.At(a)
                  && other.lo.At(a) <= b.hi.At(a) <= other.hi.At(a)
    {
      var i :| 0 <= i < |points| && points[i].At(a) == b.lo.At(a);
      var j :| 0 <= j < |points| && points[j].At(a) == b.hi.At(a);
      assert other.Contains(points[i]) && other.Contains(points[j]);
    }
  }

  /** Non-negative extents: on every axis the minimum does not exceed the
      maximum, so the size `max - min` is non-negative. */
  lemma BoundingBoxSizeNonNegative(points: seq<Vec3>)
    requires |points| > 0
    ensures forall a :: BoundingBox(points).Size().At(a) >= 0.0
  {
    var b := BoundingBox(points);
    assert b.Contains(points[0]);
  }
}
