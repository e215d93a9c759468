/** generate_spiral_cpp: sample evenly spaced angles over a closed interval
    and write the Fermat-spiral point of each angle into an n-by-2 matrix. */
module Spiral {
  import opened Geometry

  /** The C library's square root, cosine and sine, which the model does not
      compute: each kernel call receives them as plain functions on reals. */
  datatype Trig = Trig(sqrt: real -> real, cos: real -> real, sin: real -> real)

  /** Distance between consecutive angles. One sample would divide by zero,
      so a single-row spiral is excluded; zero rows is a well-defined empty matrix. */
  function Step(angleStart: real, angleEnd: real, numPoints: nat): (step: real)
    requires numPoints != 1
    ensures numPoints >= 2 ==> (numPoints - 1) as real * step == angleEnd - angleStart
  {
    (angleEnd - angleStart) / (numPoints - 1) as real
  }

  /** The angle of row i: the start angle plus i steps. */
  function Angle(angleStart: real, angleEnd: real, numPoints: nat, i: nat): (theta: real)
    requires numPoints != 1
    ensures numPoints >= 2 ==>
              (numPoints - 1) as real * (theta - angleStart) == i as real * (angleEnd - angleStart)
  {
    angleStart + i as real * Step(angleStart, angleEnd, numPoints)
  }

  /** The Fermat-spiral point of angle theta: (sqrt(theta) cos theta, sqrt(theta) sin theta).
      It lies on the line through the origin of direction (cos theta, sin theta), on the
      ray of that direction when sqrt(theta) is non-negative, and at the origin when
      sqrt(theta) is 0. */
  function FermatPoint(trig: Trig, theta: real): (p: Point)
    ensures p.x * trig.sin(theta) == p.y * trig.cos(theta)
    ensures trig.sqrt(theta) >= 0.0 ==> p.x * trig.cos(theta) + p.y * trig.sin(theta) >= 0.0
    ensures trig.sqrt(theta) == 0.0 ==> p == Point(0.0, 0.0)
  {
    var r, c, s := trig.sqrt(theta), trig.cos(theta), trig.sin(theta);
    assert r * c * c + r * s * s == r * (c * c + s * s);
    assert c * c + s * s >= 0.0;
    Point(r * c, r * s)
  }

  /** The whole point sequence, one point per sampled angle, in row order. */
  function SpiralPoints(trig: Trig, angleStart: real, angleEnd: real, numPoints: nat): (ps: seq<Point>)
    requires numPoints != 1
    ensures |ps| == numPoints
  {
    seq(numPoints, i requires 0 <= i < numPoints => FermatPoint(trig, Angle(angleStart, angleEnd, numPoints, i)))
  }

  /** The sampling covers the closed interval: the first angle is the start and the last is the end. */
  lemma AngleEndpoints(angleStart: real, angleEnd: real, numPoints: nat)
    requires numPoints >= 2
    ensures Angle(angleStart, angleEnd, numPoints, 0) == angleStart
    ensures Angle(angleStart, angleEnd, numPoints, numPoints - 1) == angleEnd
  {
  }

  /** Consecutive angles differ by the same step. */
  lemma AnglesEvenlySpaced(angleStart: real, angleEnd: real, numPoints: nat, i: nat)
    requires numPoints != 1
    ensures Angle(angleStart, angleEnd, numPoints, i + 1) - Angle(angleStart, angleEnd, numPoints, i) ==
              Step(angleStart, angleEnd, numPoints)
  {
  }

  /** For an increasing interval the angles never decrease along the rows. */
  lemma AnglesNondecreasing(angleStart: real, angleEnd: real, numPoints: nat, i: nat, j: nat)
    requires numPoints >= 2 && angleStart <= angleEnd
    requires i <= j
    ensures Angle(angleStart, angleEnd, numPoints, i) <= Angle(angleStart, angleEnd, numPoints, j)
  {
  }

  /** For an increasing interval every sampled angle lies between the start and the end. */
  lemma AnglesWithinInterval(angleStart: real, angleEnd: real, numPoints: nat, i: nat)
    requires numPoints >= 2 && angleStart <= angleEnd
    requires i < numPoints
    ensures angleStart <= Angle(angleStart, angleEnd, numPoints, i) <= angleEnd
  {
    AngleEndpoints(angleStart, angleEnd, numPoints);
    AnglesNondecreasing(angleStart, angleEnd, numPoints, 0, i);
    AnglesNondecreasing(angleStart, angleEnd, numPoints, i, numPoints - 1);
  }

  /** The first and the last row are the spiral points of the interval's endpoints. */
  lemma SpiralEndpoints(trig: Trig, angleStart: real, angleEnd: real, numPoints: nat)
    requires numPoints >= 2
    ensures SpiralPoints(trig, angleStart, angleEnd, numPoints)[0] == FermatPoint(trig, angleStart)
    ensures SpiralPoints(trig, angleStart, angleEnd, numPoints)[numPoints - 1] == FermatPoint(trig, angleEnd)
  {
    AngleEndpoints(angleStart, angleEnd, numPoints);
  }

  /** A spiral that starts at angle 0 starts at the origin, since the square root of 0 is 0. */
  lemma SpiralStartsAtOrigin(trig: Trig, angleEnd: real, numPoints: nat)
    requires numPoints >= 2
    requires trig.sqrt(0.0) == 0.0
    ensures SpiralPoints(trig, 0.0, angleEnd, numPoints)[0] == Point(0.0, 0.0)
  {
  }

  /** The kernel: allocate an n-by-2 matrix and fill row i with the spiral point
      of the i-th angle. */
  method GenerateSpiral(trig: Trig, angleStart: real, angleEnd: real, numPoints: nat) returns (points: array2<real>)
    requires numPoints != 1
    ensures fresh(points)
    ensures points.Length0 == numPoints && points.Length1 == 2
    ensures Rows(points) == SpiralPoints(trig, angleStart, angleEnd, numPoints)
    ensures numPoints >= 2 ==>
              Point(points[0, 0], points[0, 1]) == FermatPoint(trig, angleStart) &&
              Point(points[numPoints - 1, 0], points[numPoints - 1, 1]) == FermatPoint(trig, angleEnd)
  {
    points := new real[numPoints, 2];
    var step := (angleEnd - angleStart) / (numPoints - 1) as real;
    var i := 0;
    while i < numPoints
      invariant 0 <= i <= numPoints
      invariant forall k :: 0 <= k < i ==>
                  Point(points[k, 0], points[k, 1]) == FermatPoint(trig, Angle(angleStart, angleEnd, numPoints, k))
    {
      var theta := angleStart + i as real * step;
      assert theta == Angle(angleStart, angleEnd, numPoints, i);
      var sqrtTheta := trig.sqrt(theta);
      points[i, 0] := sqrtTheta * trig.cos(theta);
      points[i, 1] := sqrtTheta * trig.sin(theta);
      assert Point(points[i, 0], points[i, 1]) == FermatPoint(trig, theta);
      i := i + 1;
    }
    if numPoints >= 2 {
      SpiralEndpoints(trig, angleStart, angleEnd, numPoints);
    }
  }
}
