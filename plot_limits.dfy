/** calculate_limits_cpp: a symmetric view range that contains every
    tessellation vertex, padded by a factor and rounded outwards. */
module PlotLimits {
  import opened Geometry

  /** Half-width of the range returned when there is no vertex at all. */
  const EmptyLimit: int := 10

  /** Padding applied when the caller gives none (10% beyond the furthest vertex). */
  const DefaultPadding: real := 1.1

  /** Smallest integer not below r, as std::ceil on an exact real. */
  function Ceil(r: real): (c: int)
    ensures r <= c as real < r + 1.0
  {
    -((-r).Floor)
  }

  /** One step of the scan: compare |x|, then |y|, against the running maximum.
      The new maximum is the largest of the old one, |x| and |y|. */
  function Update(m: real, p: Point): (next: real)
    ensures next >= m && next >= Abs(p.x) && next >= Abs(p.y)
    ensures next == m || next == Abs(p.x) || next == Abs(p.y)
  {
    var afterX := if Abs(p.x) > m then Abs(p.x) else m;
    if Abs(p.y) > afterX then Abs(p.y) else afterX
  }

  /** The running maximum after scanning all rows, starting from 0. */
  function MaxAbs(ps: seq<Point>): (m: real)
    ensures m >= 0.0
  {
    if ps == [] then 0.0 else Update(MaxAbs(ps[..|ps| - 1]), ps[|ps| - 1])
  }

  /** The scan's result bounds every coordinate of every row. */
  lemma {:induction false} MaxAbsBounds(ps: seq<Point>)
    ensures MaxAbs(ps) >= 0.0
    ensures forall i :: 0 <= i < |ps| ==> Abs(ps[i].x) <= MaxAbs(ps) && Abs(ps[i].y) <= MaxAbs(ps)
  {
    if ps != [] {
      var init := ps[..|ps| - 1];
      MaxAbsBounds(init);
      assert forall i :: 0 <= i < |init| ==> ps[i] == init[i];
    }
  }

  /** The scan's result is 0 or the absolute value of some coordinate. */
  lemma {:induction false} MaxAbsAttained(ps: seq<Point>)
    ensures MaxAbs(ps) == 0.0 ||
            exists i :: 0 <= i < |ps| && (MaxAbs(ps) == Abs(ps[i].x) || MaxAbs(ps) == Abs(ps[i].y))
  {
    if ps != [] {
      var n := |ps| - 1;
      var init := ps[..n];
      MaxAbsAttained(init);
      if MaxAbs(ps) != Abs(ps[n].x) && MaxAbs(ps) != Abs(ps[n].y) && MaxAbs(ps) != 0.0 {
        var j :| 0 <= j < |init| && (MaxAbs(init) == Abs(init[j].x) || MaxAbs(init) == Abs(init[j].y));
        assert ps[j] == init[j];
      }
    }
  }

  /** Any value with both properties is the scan's result: the scan computes
      the largest absolute coordinate (or 0 with no nonzero coordinate). */
  lemma MaxAbsIsLeastBound(ps: seq<Point>, m: real)
    requires m >= 0.0
    requires forall i :: 0 <= i < |ps| ==> Abs(ps[i].x) <= m && Abs(ps[i].y) <= m
    requires m == 0.0 || exists i :: 0 <= i < |ps| && (m == Abs(ps[i].x) || m == Abs(ps[i].y))
    ensures m == MaxAbs(ps)
  {
    MaxAbsBounds(ps);
    MaxAbsAttained(ps);
  }

  /** A maximum scaled by the padding factor. */
  function Padded(m: real, padding: real): (scaled: real)
  {
    m * padding
  }

  /** The pair returned for the given vertex rows. */
  function Limits(ps: seq<Point>, padding: real): (r: (int, int))
    ensures r.0 == -r.1
    ensures ps == [] ==> r.1 == EmptyLimit
    ensures ps != [] ==> (r.1 - 1) as real < Padded(MaxAbs(ps), padding) <= r.1 as real
  {
    if ps == [] then (-EmptyLimit, EmptyLimit)
    else (-Ceil(Padded(MaxAbs(ps), padding)), Ceil(Padded(MaxAbs(ps), padding)))
  }

  /** With a non-negative padding the range is never inverted. */
  lemma LimitsNonNegative(ps: seq<Point>, padding: real)
    ensures padding >= 0.0 ==> Limits(ps, padding).0 <= 0 <= Limits(ps, padding).1
  {
  }

  /** The range contains every coordinate of every vertex once padded by a factor of at least 1. */
  lemma LimitsContainVertices(ps: seq<Point>, padding: real)
    ensures padding >= 1.0 ==> forall i :: 0 <= i < |ps| ==>
              Limits(ps, padding).0 as real <= ps[i].x <= Limits(ps, padding).1 as real &&
              Limits(ps, padding).0 as real <= ps[i].y <= Limits(ps, padding).1 as real
  {
    MaxAbsBounds(ps);
    if padding >= 1.0 {
      LimitCoversMaxAbs(ps, padding);
    }
  }

  /** The half-width is at least the largest absolute coordinate when the padding is at least 1. */
  lemma LimitCoversMaxAbs(ps: seq<Point>, padding: real)
    requires padding >= 1.0
    ensures MaxAbs(ps) <= Limits(ps, padding).1 as real
  {
  }

  /** Any vertex set whose largest absolute coordinate is 5, with the default padding, gives (-6, 6). */
  lemma LimitsOfFive(ps: seq<Point>)
    requires forall i :: 0 <= i < |ps| ==> Abs(ps[i].x) <= 5.0 && Abs(ps[i].y) <= 5.0
    requires exists i :: 0 <= i < |ps| && (Abs(ps[i].x) == 5.0 || Abs(ps[i].y) == 5.0)
    ensures Limits(ps, DefaultPadding) == (-6, 6)
  {
    MaxAbsIsLeastBound(ps, 5.0);
  }

  /** The kernel: scan the rows keeping the largest absolute coordinate,
      then round its padded value up and mirror it. */
  method CalculateLimits(vertices: array2<real>, padding: real := DefaultPadding) returns (lo: int, hi: int)
    requires vertices.Length0 == 0 || vertices.Length1 >= 2
    ensures (lo, hi) == Limits(Rows(vertices), padding)
    ensures vertices.Length0 == 0 ==> lo == -EmptyLimit && hi == EmptyLimit
    ensures lo == -hi
    ensures padding >= 0.0 ==> lo <= 0 <= hi
    ensures padding >= 1.0 ==> forall i :: 0 <= i < vertices.Length0 ==>
              lo as real <= vertices[i, 0] <= hi as real && lo as real <= vertices[i, 1] <= hi as real
  {
    LimitsNonNegative(Rows(vertices), padding);
    LimitsContainVertices(Rows(vertices), padding);
    if vertices.Length0 == 0 {
      assert Rows(vertices) == [];
      return -EmptyLimit, EmptyLimit;
    }
    var maxAbs := ScanMaxAbs(vertices);
    var limit := Ceil(Padded(maxAbs, padding));
    lo, hi := -limit, limit;
  }

  /** The scan loop of the kernel: the running maximum of |x| and |y| over all rows. */
  method ScanMaxAbs(vertices: array2<real>) returns (maxAbs: real)
    requires vertices.Length0 == 0 || vertices.Length1 >= 2
    ensures maxAbs == MaxAbs(Rows(vertices))
    ensures forall i :: 0 <= i < vertices.Length0 ==> Abs(vertices[i, 0]) <= maxAbs && Abs(vertices[i, 1]) <= maxAbs
  {
    ghost var rows := Rows(vertices);
    maxAbs := 0.0;
    var i := 0;
    while i < vertices.Length0
      invariant 0 <= i <= vertices.Length0
      invariant maxAbs == MaxAbs(rows[..i])
    {
      assert rows[..i + 1][..i] == rows[..i];
      assert rows[i] == Point(vertices[i, 0], vertices[i, 1]);
      var absX := Abs(vertices[i, 0]);
      var absY := Abs(vertices[i, 1]);
      if absX > maxAbs { maxAbs := absX; }
      if absY > maxAbs { maxAbs := absY; }
      i := i + 1;
    }
    assert rows[..i] == rows;
    MaxAbsBounds(rows);
  }
}
