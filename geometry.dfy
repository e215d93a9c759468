/** Shared vocabulary of the native kernels: a plane point and the view of an
    R numeric matrix with (at least) an x and a y column as a sequence of points. */
module Geometry {

  /** One row of a coordinate matrix: column 0 is x, column 1 is y. */
  datatype Point = Point(x: real, y: real)

  /** Absolute value, as std::abs on a double. */
  function Abs(r: real): (a: real)
    ensures a >= 0.0
    ensures a == r || a == -r
  {
    if r < 0.0 then -r else r
  }

  /** The rows of a matrix, read through its first two columns; a matrix
      without rows needs no columns. */
  ghost function Rows(m: array2<real>): (ps: seq<Point>)
    reads m
    requires m.Length0 == 0 || m.Length1 >= 2
    ensures |ps| == m.Length0
    ensures forall i :: 0 <= i < m.Length0 ==> ps[i] == Point(m[i, 0], m[i, 1])
  {
    seq(m.Length0, i reads m requires 0 <= i < m.Length0 => Point(m[i, 0], m[i, 1]))
  }
}
