/**
 * Surfaces as the metrics and the readers see them (vtkPolyData): a list of
 * 3D points and a list of polygonal cells of point ids; the Euclidean
 * distance between points; and the point locator the metrics query for the
 * closest point of a surface.
 *
 * The square root is a parameter `sqrt` required to return the
 * non-negative root of every non-negative number.
 */
module Surfaces {
  /** A point of a surface. */
  datatype Point = Point(x: real, y: real, z: real)

  /** A vtkPolyData: its points and its polygons, each a list of point ids. */
  datatype Surface = Surface(points: seq<Point>, cells: seq<seq<int>>)

  /** Coordinate j (0, 1 or 2) of a point, as the metrics read it into x[3]. */
  function Coord(p: Point, j: int): real
  {
    if j == 0 then p.x else if j == 1 then p.y else p.z
  }

  /** The squared Euclidean distance between two points. */
  function SquaredDistance(a: Point, b: Point): (d2: real)
  {
    (a.x - b.x) * (a.x - b.x) + (a.y - b.y) * (a.y - b.y) + (a.z - b.z) * (a.z - b.z)
  }

  /** The squared distance is symmetric, non-negative, and zero exactly between equal points. */
  lemma SquaredDistanceProperties(a: Point, b: Point)
    ensures SquaredDistance(a, b) == SquaredDistance(b, a)
    ensures SquaredDistance(a, b) >= 0.0
    ensures SquaredDistance(a, b) == 0.0 <==> a == b
  {
    var dx, dy, dz := a.x - b.x, a.y - b.y, a.z - b.z;
    assert dx * dx >= 0.0 && dy * dy >= 0.0 && dz * dz >= 0.0;
    if SquaredDistance(a, b) == 0.0 {
      assert dx * dx == 0.0 && dy * dy == 0.0 && dz * dz == 0.0;
      ProductZero(dx, dx);
      ProductZero(dy, dy);
      ProductZero(dz, dz);
    }
  }

  /** The per-coordinate loop the metrics run for dist_i: the sum of squared coordinate differences. */
  method SquaredDistanceLoop(x: Point, y: Point) returns (dist: real)
    ensures dist == SquaredDistance(x, y)
  {
    dist := 0.0;
    var j := 0;
    while j < 3
      invariant 0 <= j <= 3
      invariant dist == PartialSquaredDistance(x, y, j)
    {
      var d := Coord(x, j) - Coord(y, j);
      dist := dist + d * d;
      j := j + 1;
    }
    assert PartialSquaredDistance(x, y, 1) == (x.x - y.x) * (x.x - y.x);
    assert PartialSquaredDistance(x, y, 2) == PartialSquaredDistance(x, y, 1) + (x.y - y.y) * (x.y - y.y);
  }

  /** The sum of squared differences over the first n coordinates. */
  function PartialSquaredDistance(x: Point, y: Point, n: nat): real
    requires n <= 3
  {
    if n == 0 then 0.0
    else PartialSquaredDistance(x, y, n - 1) + (Coord(x, n - 1) - Coord(y, n - 1)) * (Coord(x, n - 1) - Coord(y, n - 1))
  }

  /** sqrt returns the non-negative square root of every non-negative argument. */
  ghost predicate IsSqrt(sqrt: real -> real)
  {
    forall r :: r >= 0.0 ==> sqrt(r) >= 0.0 && sqrt(r) * sqrt(r) == r
  }

  /** The root of a square of a non-negative number is that number. */
  lemma SqrtOfSquare(sqrt: real -> real, a: real)
    requires IsSqrt(sqrt) && a >= 0.0
    ensures sqrt(a * a) == a
  {
    var s := sqrt(a * a);
    assert s >= 0.0 && s * s == a * a;
    assert (s - a) * (s + a) == 0.0;
    ProductZero(s - a, s + a);
  }

  /** A product of two positive numbers is positive. */
  lemma ProductPositive(a: real, b: real)
    requires a > 0.0 && b > 0.0
    ensures a * b > 0.0
  {
  }

  /** A product is zero only when a factor is. */
  lemma ProductZero(a: real, b: real)
    requires a * b == 0.0
    ensures a == 0.0 || b == 0.0
  {
    if a > 0.0 && b > 0.0 {
      ProductPositive(a, b);
    } else if a > 0.0 && b < 0.0 {
      ProductPositive(a, -b);
    } else if a < 0.0 && b > 0.0 {
      ProductPositive(-a, b);
    } else if a < 0.0 && b < 0.0 {
      ProductPositive(-a, -b);
    }
  }

  /** The Euclidean distance between two points. */
  function Distance(sqrt: real -> real, a: Point, b: Point): real
  {
    sqrt(SquaredDistance(a, b))
  }

  /**
   * The locator's scan over points[..n]: the index of the point closest to
   * x, the earlier one on ties; -1 for no points.
   */
  function ClosestScan(points: seq<Point>, x: Point, n: nat): (id: int)
    requires n <= |points|
    ensures -1 <= id < n
  {
    if n == 0 then -1
    else
      var prev := ClosestScan(points, x, n - 1);
      if prev == -1 || SquaredDistance(x, points[n - 1]) < SquaredDistance(x, points[prev]) then n - 1 else prev
  }

  /** The id FindClosestPoint returns for x. */
  function ClosestPointId(points: seq<Point>, x: Point): int
  {
    ClosestScan(points, x, |points|)
  }

  /** The scan finds a point no farther from x than any other, the lowest such index, and -1 only for no points. */
  lemma {:induction false} ClosestScanSpec(points: seq<Point>, x: Point, n: nat)
    requires n <= |points|
    ensures var id := ClosestScan(points, x, n);
      (id == -1 <==> n == 0) &&
      (n > 0 ==>
        0 <= id < n &&
        (forall i :: 0 <= i < n ==> SquaredDistance(x, points[id]) <= SquaredDistance(x, points[i])) &&
        (forall i :: 0 <= i < id ==> SquaredDistance(x, points[id]) < SquaredDistance(x, points[i])))
  {
    if n > 0 {
      ClosestScanSpec(points, x, n - 1);
    }
  }

  /** FindClosestPoint returns a nearest point: no point of the surface is closer to x. */
  lemma ClosestPointIdIsNearest(points: seq<Point>, x: Point)
    requires |points| > 0
    ensures 0 <= ClosestPointId(points, x) < |points|
    ensures forall i :: 0 <= i < |points| ==>
      SquaredDistance(x, points[ClosestPointId(points, x)]) <= SquaredDistance(x, points[i])
  {
    ClosestScanSpec(points, x, |points|);
  }

  /** A point of the surface is its own nearest point, up to distance zero. */
  lemma ClosestPointOfMember(points: seq<Point>, i: int)
    requires 0 <= i < |points|
    ensures 0 <= ClosestPointId(points, points[i]) < |points|
    ensures SquaredDistance(points[i], points[ClosestPointId(points, points[i])]) == 0.0
  {
    ClosestPointIdIsNearest(points, points[i]);
    SquaredDistanceProperties(points[i], points[i]);
    SquaredDistanceProperties(points[i], points[ClosestPointId(points, points[i])]);
  }

  /** vtkKdTreePointLocator: built over a data set's points, answers closest-point queries. */
  class KdTreePointLocator {
    const points: seq<Point>

    /** SetDataSet followed by BuildLocator. */
    constructor (dataSet: Surface)
      ensures points == dataSet.points
    {
      points := dataSet.points;
    }

    /** The id of the point closest to x; -1 when the data set has no points. */
    method FindClosestPoint(x: Point) returns (id: int)
      ensures id == ClosestPointId(points, x)
    {
      id := -1;
      var i := 0;
      while i < |points|
        invariant 0 <= i <= |points|
        invariant id == ClosestScan(points, x, i)
      {
        if id == -1 || SquaredDistance(x, points[i]) < SquaredDistance(x, points[id]) {
          id := i;
        }
        i := i + 1;
      }
    }
  }
}
