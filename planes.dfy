/**
 * The clipping plane { p : n.p = e } of meshmagick.py (class Plane) and the
 * plane/edge intersection used by the clipper.
 */
module Planes {
  import opened Geometry
  import opened Results

  /** `point_distance` leaves `position` unassigned on one path; Python then raises. */
  datatype PlaneError = UnboundPosition

  function Abs(x: real): real { if x < 0.0 then -x else x }

  /**
   * Normal built by `set_position` from the cosines and sines of the roll
   * angle phi and the pitch angle theta (the trigonometry is supplied).
   */
  function PositionedNormal(cphi: real, sphi: real, ctheta: real, stheta: real): Vec3 {
    Vec3(stheta * cphi, -sphi, ctheta * cphi)
  }

  /** With genuine cosine/sine pairs the normal of `set_position` has unit length. */
  lemma PositionedNormalIsUnit(cphi: real, sphi: real, ctheta: real, stheta: real)
    requires cphi * cphi + sphi * sphi == 1.0
    requires ctheta * ctheta + stheta * stheta == 1.0
    ensures Dot(PositionedNormal(cphi, sphi, ctheta, stheta), PositionedNormal(cphi, sphi, ctheta, stheta)) == 1.0
  {
    var n := PositionedNormal(cphi, sphi, ctheta, stheta);
    calc {
      Dot(n, n);
      (stheta * cphi) * (stheta * cphi) + sphi * sphi + (ctheta * cphi) * (ctheta * cphi);
      { assert (stheta * cphi) * (stheta * cphi) + (ctheta * cphi) * (ctheta * cphi)
          == (stheta * stheta + ctheta * ctheta) * (cphi * cphi); }
      (stheta * stheta + ctheta * ctheta) * (cphi * cphi) + sphi * sphi;
      cphi * cphi + sphi * sphi;
    }
  }

  /**
   * Classification performed by `point_distance`, on the plane's fields.
   * The band test is on n.p, not on n.p - e; a point with n.p == e outside
   * that band leaves the result position unassigned.
   */
  function ClassifyPoint(normal: Vec3, e: real, p: Vec3, tol: real): (r: Result<(real, int), PlaneError>)
    ensures r.Ok? <==> (Abs(Dot(normal, p)) < tol || Dot(normal, p) != e)
    ensures r.Ok? ==> r.value.0 == Dot(normal, p)
    ensures r.Ok? ==> (r.value.1 == 0 <==> Abs(Dot(normal, p)) < tol)
    ensures r.Ok? ==> (r.value.1 == -1 <==> Abs(Dot(normal, p)) >= tol && Dot(normal, p) < e)
    ensures r.Ok? ==> (r.value.1 == 1 <==> Abs(Dot(normal, p)) >= tol && Dot(normal, p) > e)
  {
    var dist := Dot(normal, p);
    if Abs(dist) < tol then Ok((dist, 0))
    else if dist < e then Ok((dist, -1))
    else if dist > e then Ok((dist, 1))
    else Err(UnboundPosition)
  }

  /**
   * For a plane through the origin and a positive band the classification
   * never fails, and outside the band it is the sign of the signed distance.
   */
  lemma ClassifyThroughOrigin(normal: Vec3, p: Vec3, tol: real)
    requires tol > 0.0
    ensures ClassifyPoint(normal, 0.0, p, tol).Ok?
    ensures var d := Dot(normal, p);
      ClassifyPoint(normal, 0.0, p, tol).value.1 == (if Abs(d) < tol then 0 else if d < 0.0 then -1 else 1)
  {
  }

  /**
   * The band test ignores the offset: on the plane z = 1 the point (0, 0, 1),
   * which lies on the plane, gets no position at all.
   */
  lemma ClassifyOnOffsetPlaneFails()
    ensures ClassifyPoint(Vec3(0.0, 0.0, 1.0), 1.0, Vec3(0.0, 0.0, 1.0), 0.000000001).Err?
  {
  }

  class Plane {
    var normal: Vec3
    var e: real

    constructor (normal: Vec3, e: real)
      ensures this.normal == normal && this.e == e
    {
      this.normal := normal;
      this.e := e;
    }

    /** `flip`: reverses the normal; the offset is left as it is. */
    method Flip()
      modifies this
      ensures normal == Neg(old(normal)) && e == old(e)
    {
      normal := Neg(normal);
    }

    /**
     * `set_position(z, phi, theta)`: the normal follows the two angles and the
     * offset puts the point (0, 0, z) on the plane.
     */
    method SetPosition(z: real, cphi: real, sphi: real, ctheta: real, stheta: real)
      modifies this
      ensures normal == PositionedNormal(cphi, sphi, ctheta, stheta)
      ensures e == z * normal.z
      ensures Dot(normal, Vec3(0.0, 0.0, z)) == e
    {
      normal := Vec3(stheta * cphi, -sphi, ctheta * cphi);
      e := z * normal.z;
    }

    /** `point_distance`: projected distance n.p and position 0, -1 or 1. */
    function PointDistance(p: Vec3, tol: real): (r: Result<(real, int), PlaneError>)
      reads this
      ensures r == ClassifyPoint(normal, e, p, tol)
      ensures r.Ok? ==> r.value.0 == Dot(normal, p)
    {
      ClassifyPoint(normal, e, p, tol)
    }
  }

  /** Signed distance n.v - e used by the clipper. */
  function SignedDistance(normal: Vec3, e: real, v: Vec3): real {
    Dot(normal, v) - e
  }

  /** Interpolation parameter t = d0 / (d0 - d1) of `get_edge_intersection_by_plane`. */
  function EdgeParameter(d0: real, d1: real): real
    requires d0 != d1
  {
    d0 / (d0 - d1)
  }

  /** When the two ends are on opposite sides (or on the plane) t lies in [0, 1]. */
  lemma EdgeParameterInUnitInterval(d0: real, d1: real)
    requires d0 != d1
    requires d0 * d1 <= 0.0
    ensures 0.0 <= EdgeParameter(d0, d1) <= 1.0
  {
    var t := EdgeParameter(d0, d1);
    assert t * (d0 - d1) == d0;
    if d0 > d1 {
      assert d0 >= 0.0 && d1 <= 0.0;
    } else {
      assert d0 <= 0.0 && d1 >= 0.0;
    }
  }

  /** The point V0 + t (V1 - V0), t = d0 / (d0 - d1), for end distances d0 and d1. */
  function Cut(v0: Vec3, v1: Vec3, d0: real, d1: real): Vec3
    requires d0 != d1
  {
    Add(v0, Scale(EdgeParameter(d0, d1), Sub(v1, v0)))
  }

  /** With the ends' true signed distances, the cut point lies on the plane. */
  lemma CutOnPlane(normal: Vec3, e: real, v0: Vec3, v1: Vec3)
    requires SignedDistance(normal, e, v0) != SignedDistance(normal, e, v1)
    ensures SignedDistance(normal, e, Cut(v0, v1, SignedDistance(normal, e, v0), SignedDistance(normal, e, v1))) == 0.0
  {
    var d0 := SignedDistance(normal, e, v0);
    var d1 := SignedDistance(normal, e, v1);
    var t := EdgeParameter(d0, d1);
    DotLerp(normal, v0, v1, t);
    assert t * (d1 - d0) == -d0;
  }

  /** The cut point does not depend on the direction in which the edge is walked. */
  lemma CutSymmetric(v0: Vec3, v1: Vec3, d0: real, d1: real)
    requires d0 != d1
    ensures Cut(v0, v1, d0, d1) == Cut(v1, v0, d1, d0)
  {
    var s := EdgeParameter(d0, d1);
    var u := EdgeParameter(d1, d0);
    assert s * (d0 - d1) == d0;
    assert u * (d1 - d0) == d1;
    assert (1.0 - s) * (d1 - d0) == d1;
    Cancel(u, 1.0 - s, d1 - d0);
    var q := Cut(v0, v1, d0, d1);
    var q' := Cut(v1, v0, d1, d0);
    assert q.x == v0.x + s * (v1.x - v0.x);
    assert q'.x == v1.x + (1.0 - s) * (v0.x - v1.x);
    assert q'.y == v1.y + (1.0 - s) * (v0.y - v1.y);
    assert q'.z == v1.z + (1.0 - s) * (v0.z - v1.z);
  }

  /** `get_edge_intersection_by_plane`: the point where the edge V0 V1 meets the plane. */
  function EdgeIntersection(normal: Vec3, e: real, v0: Vec3, v1: Vec3): (q: Vec3)
    requires SignedDistance(normal, e, v0) != SignedDistance(normal, e, v1)
    ensures SignedDistance(normal, e, q) == 0.0
  {
    CutOnPlane(normal, e, v0, v1);
    Cut(v0, v1, SignedDistance(normal, e, v0), SignedDistance(normal, e, v1))
  }

  /** The intersection does not depend on the direction in which the edge is walked. */
  lemma EdgeIntersectionSymmetric(normal: Vec3, e: real, v0: Vec3, v1: Vec3)
    requires SignedDistance(normal, e, v0) != SignedDistance(normal, e, v1)
    ensures EdgeIntersection(normal, e, v0, v1) == EdgeIntersection(normal, e, v1, v0)
  {
    CutSymmetric(v0, v1, SignedDistance(normal, e, v0), SignedDistance(normal, e, v1));
  }
}
