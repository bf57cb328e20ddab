/**
 * Force/moment residual and hydrostatic stiffness matrix of hydrostatics.py
 * (`_get_residual`, `HydrostaticsMesh.get_hydrostatic_stiffness_matrix`).
 */
module Hydrostatics {
  import opened Geometry

  function Abs(x: real): real { if x < 0.0 then -x else x }

  /**
   * `_get_residual`: [rho g V - m g, rho g V cw_y - m g cog_y, -rho g V cw_x + m g cog_x],
   * the heave force and the two horizontal moments out of balance.
   */
  function Residual(rho: real, g: real, vw: real, cw: Vec3, mass: real, cog: Vec3): (res: Vec3)
    ensures res.x == rho * g * vw - mass * g
    ensures res.y == (rho * g * vw) * cw.y - (mass * g) * cog.y
    ensures res.z == -(rho * g * vw) * cw.x + (mass * g) * cog.x
  {
    var rgvw := rho * g * vw;
    var mg := mass * g;
    Vec3(rgvw - mg, rgvw * cw.y - mg * cog.y, -rgvw * cw.x + mg * cog.x)
  }

  /**
   * The residual vanishes exactly at balance: displaced mass equal to the
   * mass and buoyancy centre vertically aligned with the centre of gravity
   * (for non-zero gravity and mass).
   */
  lemma ResidualZeroIffBalanced(rho: real, g: real, vw: real, cw: Vec3, mass: real, cog: Vec3)
    requires g != 0.0 && mass != 0.0
    ensures Residual(rho, g, vw, cw, mass, cog) == Vec3(0.0, 0.0, 0.0)
        <==> rho * vw == mass && cw.x == cog.x && cw.y == cog.y
  {
    var res := Residual(rho, g, vw, cw, mass, cog);
    var buoy, weight := rho * g * vw, mass * g;
    assert weight != 0.0;
    assert buoy == (rho * vw) * g;
    if res == Vec3(0.0, 0.0, 0.0) {
      assert buoy == weight by {
        assert res.x == buoy - weight;
      }
      Cancel(rho * vw, mass, g);
      assert cw.y * weight == cog.y * weight by {
        assert res.y == buoy * cw.y - weight * cog.y;
        assert buoy * cw.y == weight * cw.y;
      }
      Cancel(cw.y, cog.y, weight);
      assert cw.x * weight == cog.x * weight by {
        assert res.z == -buoy * cw.x + weight * cog.x;
        assert buoy * cw.x == weight * cw.x;
      }
      Cancel(cw.x, cog.x, weight);
    }
    if rho * vw == mass && cw.x == cog.x && cw.y == cog.y {
      assert buoy == weight;
      assert res.x == 0.0 && res.y == 0.0 && res.z == 0.0;
    }
  }

  /** Coefficients below this are reset to zero. */
  const StiffnessTol: real := 0.00000001

  /** `np.fabs` followed by `Khs[Khs < tol] = 0.` on one coefficient. */
  function CleanEntry(k: real): (c: real)
    ensures c == 0.0 || c >= StiffnessTol
    ensures c == 0.0 <==> Abs(k) < StiffnessTol
    ensures c != 0.0 ==> c == Abs(k)
  {
    if Abs(k) < StiffnessTol then 0.0 else Abs(k)
  }

  /**
   * `get_hydrostatic_stiffness_matrix`: from the waterplane moments sfint,
   * the immersed volume vw and the heights z_c (buoyancy centre) and z_g
   * (centre of gravity) in the plane's frame, the 3x3 heave/roll/pitch
   * matrix rho g [[k33, k34, k35], [k34, k44, k45], [k35, k45, k55]], with
   * every entry replaced by its absolute value and tiny entries zeroed.
   */
  function StiffnessMatrix(sfint: seq<real>, vw: real, zc: real, zg: real, rho: real, g: real): (K: seq<seq<real>>)
    requires |sfint| == 6
    ensures |K| == 3 && forall i :: 0 <= i < 3 ==> |K[i]| == 3
    ensures K[0][0] == CleanEntry(rho * g * sfint[0])
    ensures K[0][1] == CleanEntry(rho * g * sfint[2])
    ensures K[0][2] == CleanEntry(rho * g * -sfint[1])
    ensures K[1][2] == CleanEntry(rho * g * -sfint[3])
    ensures K[1][1] == CleanEntry(rho * g * (sfint[5] + vw * (zc - zg)))
    ensures K[2][2] == CleanEntry(rho * g * (sfint[4] + vw * (zc - zg)))
  {
    var c33 := CleanEntry(rho * g * sfint[0]);
    var c34 := CleanEntry(rho * g * sfint[2]);
    var c35 := CleanEntry(rho * g * -sfint[1]);
    var c44 := CleanEntry(rho * g * (sfint[5] + vw * (zc - zg)));
    var c45 := CleanEntry(rho * g * -sfint[3]);
    var c55 := CleanEntry(rho * g * (sfint[4] + vw * (zc - zg)));
    [[c33, c34, c35], [c34, c44, c45], [c35, c45, c55]]
  }

  /**
   * The matrix is symmetric, has no negative entry and no entry strictly
   * between 0 and the tolerance.
   */
  lemma StiffnessMatrixShape(sfint: seq<real>, vw: real, zc: real, zg: real, rho: real, g: real)
    requires |sfint| == 6
    ensures var K := StiffnessMatrix(sfint, vw, zc, zg, rho, g);
      forall i, j :: 0 <= i < 3 && 0 <= j < 3 ==>
        K[i][j] == K[j][i] && K[i][j] >= 0.0 && (K[i][j] == 0.0 || K[i][j] >= StiffnessTol)
  {
    var K := StiffnessMatrix(sfint, vw, zc, zg, rho, g);
    assert K[1][0] == K[0][1] && K[2][0] == K[0][2] && K[2][1] == K[1][2];
  }

  /**
   * A waterplane symmetric about both axes (vanishing first moments) has no
   * heave/roll and heave/pitch coupling.
   */
  lemma SymmetricWaterplaneDecouplesHeave(sfint: seq<real>, vw: real, zc: real, zg: real, rho: real, g: real)
    requires |sfint| == 6
    requires sfint[1] == 0.0 && sfint[2] == 0.0
    ensures var K := StiffnessMatrix(sfint, vw, zc, zg, rho, g);
      K[0][1] == 0.0 && K[1][0] == 0.0 && K[0][2] == 0.0 && K[2][0] == 0.0
  {
  }

  /**
   * The heave term is rho g times the waterplane area, and roll and pitch
   * share the correction V (z_c - z_g): their difference is that of the
   * second moments of the waterplane.
   */
  lemma StiffnessRollPitchShareCorrection(sfint: seq<real>, vw: real, zc: real, zg: real, rho: real, g: real)
    requires |sfint| == 6
    requires rho * g * (sfint[5] + vw * (zc - zg)) >= StiffnessTol
    requires rho * g * (sfint[4] + vw * (zc - zg)) >= StiffnessTol
    ensures var K := StiffnessMatrix(sfint, vw, zc, zg, rho, g);
      K[1][1] - K[2][2] == rho * g * (sfint[5] - sfint[4])
  {
  }
}
