/**
 * Waterplane moments of hydrostatics.py (`_get_floating_surface_integrals`):
 * six Green's-theorem line integrals over closed boundary rings given in the
 * plane's own (x, y) frame, summed over rings and scaled by `mult_sf`.
 */
module Waterplane {
  import opened Results

  datatype Point2 = Point2(x: real, y: real)

  /** `update` raises when clipping produced no intersection polygon. */
  datatype WaterplaneError = NoIntersectionPolygon

  /** `mult_sf`: 1/2, 1/6, -1/6, 1/24, 1/12, -1/12. */
  const MultSf: seq<real> := [1.0 / 2.0, 1.0 / 6.0, -1.0 / 6.0, 1.0 / 24.0, 1.0 / 12.0, -1.0 / 12.0]

  /** A ring is closed when its last vertex repeats the first. */
  predicate Closed(r: seq<Point2>) {
    |r| >= 1 && r[|r| - 1] == r[0]
  }

  /**
   * The precomputed `xj2` of the source: x_j^2 for j < nv, and x_0^2 in the
   * extra slot nv (nv = number of edges = |r| - 1).
   */
  function SqX(r: seq<Point2>, j: int): real
    requires 0 <= j < |r|
  {
    if j == |r| - 1 then r[0].x * r[0].x else r[j].x * r[j].x
  }

  /** `yj2`, built the same way from the y coordinates. */
  function SqY(r: seq<Point2>, j: int): real
    requires 0 <= j < |r|
  {
    if j == |r| - 1 then r[0].y * r[0].y else r[j].y * r[j].y
  }

  /** Edge term of int(1): (x_j + x_{j+1}) (y_{j+1} - y_j). */
  function AreaTerm(x0: real, x1: real, y0: real, y1: real): real {
    (x0 + x1) * (y1 - y0)
  }

  /** Edge term of int(x) and int(y): (a_j^2 + a_j a_{j+1} + a_{j+1}^2) d. */
  function FirstMomentTerm(sq0: real, sq1: real, prod: real, d: real): real {
    (sq0 + prod + sq1) * d
  }

  /** Edge term of int(xy). */
  function CrossMomentTerm(sq0: real, sq1: real, x0: real, x1: real, y0: real, y1: real): real {
    (sq0 * (2.0 * y0 + (y0 + y1)) + sq1 * (2.0 * y1 + (y0 + y1)) + 2.0 * (x0 * x1) * (y0 + y1)) * (y1 - y0)
  }

  /** Edge term of int(x**2) and int(y**2): (a_j^2 + a_{j+1}^2)(a_j + a_{j+1}) d. */
  function SecondMomentTerm(sq0: real, sq1: real, sum: real, d: real): real {
    (sq0 + sq1) * sum * d
  }

  /** Term of edge j (from vertex j to vertex j + 1) in the integral number k. */
  function EdgeTerm(r: seq<Point2>, k: int, j: int): real
    requires 0 <= k < 6
    requires 0 <= j < |r| - 1
  {
    var x0, x1, y0, y1 := r[j].x, r[j + 1].x, r[j].y, r[j + 1].y;
    if k == 0 then AreaTerm(x0, x1, y0, y1)
    else if k == 1 then FirstMomentTerm(SqX(r, j), SqX(r, j + 1), x0 * x1, y1 - y0)
    else if k == 2 then FirstMomentTerm(SqY(r, j), SqY(r, j + 1), y0 * y1, x1 - x0)
    else if k == 3 then CrossMomentTerm(SqX(r, j), SqX(r, j + 1), x0, x1, y0, y1)
    else if k == 4 then SecondMomentTerm(SqX(r, j), SqX(r, j + 1), x0 + x1, y1 - y0)
    else SecondMomentTerm(SqY(r, j), SqY(r, j + 1), y0 + y1, x1 - x0)
  }

  /** Sum of the terms of the first n edges of a ring. */
  function RingSum(r: seq<Point2>, k: int, n: int): real
    requires 0 <= k < 6
    requires 0 <= n <= |r| - 1
  {
    if n == 0 then 0.0 else RingSum(r, k, n - 1) + EdgeTerm(r, k, n - 1)
  }

  /** Sum over every edge of every ring (the `sint[k] +=` loop before scaling). */
  function RingsSum(rings: seq<seq<Point2>>, k: int): real
    requires 0 <= k < 6
    requires forall i :: 0 <= i < |rings| ==> |rings[i]| >= 1
  {
    if |rings| == 0 then 0.0
    else RingsSum(rings[..|rings| - 1], k) + RingSum(rings[|rings| - 1], k, |rings[|rings| - 1]| - 1)
  }

  /** `_get_floating_surface_integrals`: the six sums times `mult_sf`. */
  function FloatingSurfaceIntegrals(rings: seq<seq<Point2>>): (sint: seq<real>)
    requires forall i :: 0 <= i < |rings| ==> |rings[i]| >= 1
    ensures |sint| == 6
  {
    seq(6, k requires 0 <= k < 6 => MultSf[k] * RingsSum(rings, k))
  }

  /**
   * Lines 62-63 and 86-89 of `update`: no boundary polygon is an error;
   * otherwise the moments are computed, the area being the first.
   */
  function WaterplaneOf(rings: seq<seq<Point2>>): (r: Result<seq<real>, WaterplaneError>)
    requires forall i :: 0 <= i < |rings| ==> |rings[i]| >= 1
    ensures r.Err? <==> |rings| == 0
    ensures r.Ok? ==> r.value == FloatingSurfaceIntegrals(rings)
  {
    if |rings| == 0 then Err(NoIntersectionPolygon) else Ok(FloatingSurfaceIntegrals(rings))
  }

  /** The moments of several rings are the sums of the moments of each. */
  lemma {:induction false} IntegralsAdditive(a: seq<seq<Point2>>, b: seq<seq<Point2>>)
    requires forall i :: 0 <= i < |a| ==> |a[i]| >= 1
    requires forall i :: 0 <= i < |b| ==> |b[i]| >= 1
    ensures forall k :: 0 <= k < 6 ==>
      FloatingSurfaceIntegrals(a + b)[k] == FloatingSurfaceIntegrals(a)[k] + FloatingSurfaceIntegrals(b)[k]
  {
    forall k | 0 <= k < 6 ensures RingsSum(a + b, k) == RingsSum(a, k) + RingsSum(b, k) {
      RingsSumAppend(a, b, k);
    }
  }

  lemma {:induction false} RingsSumAppend(a: seq<seq<Point2>>, b: seq<seq<Point2>>, k: int)
    requires 0 <= k < 6
    requires forall i :: 0 <= i < |a| ==> |a[i]| >= 1
    requires forall i :: 0 <= i < |b| ==> |b[i]| >= 1
    ensures RingsSum(a + b, k) == RingsSum(a, k) + RingsSum(b, k)
  {
    if |b| == 0 {
      assert a + b == a;
    } else {
      var b' := b[..|b| - 1];
      assert (a + b)[..|a + b| - 1] == a + b';
      RingsSumAppend(a, b', k);
    }
  }

  /** Shoelace term x_j y_{j+1} - x_{j+1} y_j of the commented-out `int(1)`. */
  function ShoelaceSum(r: seq<Point2>, n: int): real
    requires 0 <= n <= |r| - 1
  {
    if n == 0 then 0.0 else ShoelaceSum(r, n - 1) + (r[n - 1].x * r[n].y - r[n].x * r[n - 1].y)
  }

  lemma {:induction false} AreaTelescopes(r: seq<Point2>, n: int)
    requires 0 <= n <= |r| - 1
    ensures RingSum(r, 0, n) == ShoelaceSum(r, n) + r[n].x * r[n].y - r[0].x * r[0].y
  {
    if n > 0 {
      AreaTelescopes(r, n - 1);
    }
  }

  /**
   * On a closed ring the area integral (x_j + x_{j+1})(y_{j+1} - y_j) summed
   * over the edges equals the shoelace sum.
   */
  lemma AreaIsShoelace(r: seq<Point2>)
    requires Closed(r)
    ensures RingSum(r, 0, |r| - 1) == ShoelaceSum(r, |r| - 1)
  {
    AreaTelescopes(r, |r| - 1);
  }

  /** Commented-out edge term of int(x) and int(y): ((a_j + a_{j+1})^2 - a_j a_{j+1}) d. */
  function AltFirstTerm(a: real, b: real, d: real): real {
    ((a + b) * (a + b) - a * b) * d
  }

  /** Commented-out edge term of int(x**2) and int(y**2): d (a^3 + a^2 b + a b^2 + b^3). */
  function AltSecondTerm(a: real, b: real, d: real): real {
    d * (a * a * a + a * a * b + a * b * b + b * b * b)
  }

  /** Commented-out `int(x)` summed over the first n edges. */
  function AltXSum(r: seq<Point2>, n: int): real
    requires 0 <= n <= |r| - 1
  {
    if n == 0 then 0.0
    else
      var x0, x1 := r[n - 1].x, r[n].x;
      AltXSum(r, n - 1) + AltFirstTerm(x0, x1, r[n].y - r[n - 1].y)
  }

  /** Commented-out `int(y)` summed over the first n edges. */
  function AltYSum(r: seq<Point2>, n: int): real
    requires 0 <= n <= |r| - 1
  {
    if n == 0 then 0.0
    else
      var y0, y1 := r[n - 1].y, r[n].y;
      AltYSum(r, n - 1) + AltFirstTerm(y0, y1, r[n].x - r[n - 1].x)
  }

  /** Commented-out `int(x**2)` summed over the first n edges. */
  function AltXXSum(r: seq<Point2>, n: int): real
    requires 0 <= n <= |r| - 1
  {
    if n == 0 then 0.0
    else
      var x0, x1 := r[n - 1].x, r[n].x;
      AltXXSum(r, n - 1) + AltSecondTerm(x0, x1, r[n].y - r[n - 1].y)
  }

  /** Commented-out `int(y**2)` summed over the first n edges. */
  function AltYYSum(r: seq<Point2>, n: int): real
    requires 0 <= n <= |r| - 1
  {
    if n == 0 then 0.0
    else
      var y0, y1 := r[n - 1].y, r[n].y;
      AltYYSum(r, n - 1) + AltSecondTerm(y0, y1, r[n].x - r[n - 1].x)
  }

  /** Edge factor of int(x) and int(y): a^2 + ab + b^2 = (a + b)^2 - ab. */
  lemma SquareFactor(a: real, b: real, d: real)
    ensures FirstMomentTerm(a * a, b * b, a * b, d) == AltFirstTerm(a, b, d)
  {
  }

  /** Edge factor of int(x**2) and int(y**2): (a^2 + b^2)(a + b) = a^3 + a^2 b + a b^2 + b^3. */
  lemma CubeFactor(a: real, b: real, d: real)
    ensures SecondMomentTerm(a * a, b * b, a + b, d) == AltSecondTerm(a, b, d)
  {
  }

  /** On a closed ring the squares stored in the extra slot are those of the last vertex. */
  lemma ClosedSquares(r: seq<Point2>, j: int)
    requires Closed(r)
    requires 0 <= j < |r|
    ensures SqX(r, j) == r[j].x * r[j].x && SqY(r, j) == r[j].y * r[j].y
  {
  }

  /**
   * On a closed ring the active int(x) agrees with the commented-out
   * ((x_j + x_{j+1})^2 - x_j x_{j+1}) (y_{j+1} - y_j). The squares of the last
   * edge come from the first vertex, so closure is what makes them agree.
   */
  lemma {:induction false} IntXAlternativeForm(r: seq<Point2>, n: int)
    requires Closed(r)
    requires 0 <= n <= |r| - 1
    ensures RingSum(r, 1, n) == AltXSum(r, n)
  {
    if n > 0 {
      IntXAlternativeForm(r, n - 1);
      var j := n - 1;
      ClosedSquares(r, j);
      ClosedSquares(r, j + 1);
      SquareFactor(r[j].x, r[j + 1].x, r[j + 1].y - r[j].y);
    }
  }

  /** The same for int(y), in y. */
  lemma {:induction false} IntYAlternativeForm(r: seq<Point2>, n: int)
    requires Closed(r)
    requires 0 <= n <= |r| - 1
    ensures RingSum(r, 2, n) == AltYSum(r, n)
  {
    if n > 0 {
      IntYAlternativeForm(r, n - 1);
      var j := n - 1;
      ClosedSquares(r, j);
      ClosedSquares(r, j + 1);
      SquareFactor(r[j].y, r[j + 1].y, r[j + 1].x - r[j].x);
    }
  }

  /** On a closed ring the active int(x**2) agrees with the commented-out cubic form. */
  lemma {:induction false} IntXXAlternativeForm(r: seq<Point2>, n: int)
    requires Closed(r)
    requires 0 <= n <= |r| - 1
    ensures RingSum(r, 4, n) == AltXXSum(r, n)
  {
    if n > 0 {
      IntXXAlternativeForm(r, n - 1);
      var j := n - 1;
      ClosedSquares(r, j);
      ClosedSquares(r, j + 1);
      CubeFactor(r[j].x, r[j + 1].x, r[j + 1].y - r[j].y);
    }
  }

  /** On a closed ring the active int(y**2) agrees with the commented-out cubic form. */
  lemma {:induction false} IntYYAlternativeForm(r: seq<Point2>, n: int)
    requires Closed(r)
    requires 0 <= n <= |r| - 1
    ensures RingSum(r, 5, n) == AltYYSum(r, n)
  {
    if n > 0 {
      IntYYAlternativeForm(r, n - 1);
      var j := n - 1;
      ClosedSquares(r, j);
      ClosedSquares(r, j + 1);
      CubeFactor(r[j].y, r[j + 1].y, r[j + 1].x - r[j].x);
    }
  }

  /** The unit square, counter-clockwise, gets its exact area and moments. */
  lemma UnitSquareMoments()
    ensures var sq := [Point2(0.0, 0.0), Point2(1.0, 0.0), Point2(1.0, 1.0), Point2(0.0, 1.0), Point2(0.0, 0.0)];
      FloatingSurfaceIntegrals([sq]) == [1.0, 1.0 / 2.0, 1.0 / 2.0, 1.0 / 4.0, 1.0 / 3.0, 1.0 / 3.0]
  {
    var sq := [Point2(0.0, 0.0), Point2(1.0, 0.0), Point2(1.0, 1.0), Point2(0.0, 1.0), Point2(0.0, 0.0)];
    assert [sq][..0] == [];
    forall k | 0 <= k < 6 ensures RingsSum([sq], k) == RingSum(sq, k, 4) {
    }
    assert RingSum(sq, 0, 4) == 2.0;
    assert RingSum(sq, 1, 4) == 3.0;
    assert RingSum(sq, 2, 4) == -3.0;
    assert RingSum(sq, 3, 4) == 6.0;
    assert RingSum(sq, 4, 4) == 4.0;
    assert RingSum(sq, 5, 4) == -4.0;
  }
}
