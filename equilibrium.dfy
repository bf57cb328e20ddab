/**
 * The equilibrium searches of hydrostatics.py `get_hydrostatics`: the heave
 * only Newton iteration (mass given) and the heave/roll/pitch iteration
 * (mass and centre of gravity given).
 *
 * Each iteration moves the clipping plane and recomputes the clipped
 * mesh's hydrostatics (`HydrostaticsMesh.update`). That recomputation is a
 * parameter `at` of the searches: for a plane position (z, phi, theta) it
 * gives the hydrostatic state of the clipped hull, or None when no
 * intersection polygon exists (`update` raises RuntimeError).
 */
module Equilibrium {
  import opened Geometry
  import opened Results
  import opened Hydrostatics

  /**
   * What `update` stores on the hydrostatics mesh at one plane position:
   * displaced volume, waterplane integrals (sfint[0] is the waterplane
   * area), the buoyancy centre and the centre of gravity in the frame of
   * the plane, their heights z_c and z_g above the plane, and Re0[2, 2].
   */
  datatype HullState = HullState(vw: real, sfint: seq<real>, cwPlane: Vec3, cogPlane: Vec3,
                                 zc: real, zg: real, r33: real)

  predicate ValidHull(h: HullState) { |h.sfint| == 6 }

  /** `HydrostaticsMesh.update` at the plane position p, as given by the oracle `at`. */
  function Update(at: Vec3 -> Option<HullState>, p: Vec3): Option<HullState>
  {
    at(p)
  }

  /** Every hull state the recomputation can produce has six waterplane integrals. */
  ghost predicate ValidOracle(at: Vec3 -> Option<HullState>)
  {
    forall p :: Update(at, p).Some? ==> ValidHull(Update(at, p).value)
  }

  /** `maxiter` */
  const MaxIter: nat := 50

  /**
   * How a search ends: status 1 and status 0 of the source, the exception
   * raised by `update`, a zero heave stiffness (the source divides by it),
   * and a singular stiffness matrix (`np.linalg.solve` raises LinAlgError).
   */
  datatype Outcome = Converged | NotConverged | NoIntersection | ZeroStiffness | SingularMatrix

  function Min(a: real, b: real): (m: real)
    ensures m <= a && m <= b && (m == a || m == b)
  {
    if a <= b then a else b
  }

  /** `math.copysign(m, s)`: the magnitude of m with the sign of s. */
  function CopySign(m: real, s: real): (r: real)
    ensures Abs(r) == Abs(m)
    ensures s < 0.0 ==> r <= 0.0
    ensures s >= 0.0 ==> r >= 0.0
  {
    if s < 0.0 then -Abs(m) else Abs(m)
  }

  /** `if fabs(d) > cap: d = copysign(cap, d)`: a step limited to the cap, sign kept. */
  function Clamp(d: real, cap: real): (r: real)
    requires cap >= 0.0
    ensures Abs(r) <= cap
    ensures Abs(d) <= cap ==> r == d
    ensures Abs(d) > cap ==> Abs(r) == cap
    ensures (d < 0.0 ==> r <= 0.0) && (d > 0.0 ==> r >= 0.0)
  {
    if Abs(d) > cap then CopySign(cap, d) else d
  }

  /**
   * The heave cap after a residual: divided by 4 when the residual changed
   * sign and grew, by 2 when it changed sign without growing, kept
   * otherwise.
   */
  function ShrinkCap(res: real, resOld: real, zmax: real): (z: real)
    requires zmax >= 0.0
    ensures 0.0 <= z <= zmax
    ensures res * resOld >= 0.0 ==> z == zmax
    ensures res * resOld < 0.0 && Abs(res) > Abs(resOld) ==> 4.0 * z == zmax
    ensures res * resOld < 0.0 && Abs(res) <= Abs(resOld) ==> 2.0 * z == zmax
  {
    if res * resOld < 0.0 then
      if Abs(res) > Abs(resOld) then zmax / 4.0 else zmax / 2.0
    else zmax
  }

  /** How far n steps, each within the cap c, can move a position. */
  function Reach(n: nat, c: real): real { n as real * c }

  /** A step within the cap moves a position bounded by n caps to one bounded by n + 1. */
  lemma AccumulateBound(a: real, d: real, n: nat, c: real)
    requires Abs(a) <= Reach(n, c) && Abs(d) <= c
    ensures Abs(a + d) <= Reach(n + 1, c)
  {
    assert (n + 1) as real * c == n as real * c + c;
  }

  /** More steps reach at least as far. */
  lemma ReachGrows(m: nat, n: nat, c: real)
    requires m <= n && c >= 0.0
    ensures Reach(m, c) <= Reach(n, c)
  {
    assert Reach(n, c) == Reach(m, c) + (n - m) as real * c;
  }

  /** The Newton correction g res / (rho g S) of the heave search. */
  function NewtonStep(g: real, res: real, stiffness: real): real
    requires stiffness != 0.0
  {
    g * res / stiffness
  }

  /** The heave stiffness rho g S of a hull whose waterplane area is S. */
  function HeaveStiffness(h: HullState, rho: real, g: real): real
    requires |h.sfint| >= 1
  {
    rho * g * h.sfint[0]
  }

  /** The heave residual rho V - m. */
  function MassResidual(h: HullState, rho: real, mass: real): real
  {
    rho * h.vw - mass
  }

  /** Plane position (z, 0, 0) used by the heave search. */
  function HeavePosition(z: real): Vec3 { Vec3(z, 0.0, 0.0) }

  /**
   * The variables the heave search carries from one iteration to the next:
   * the plane height, the residual of the previous iteration and the cap.
   */
  datatype HeaveState = HeaveState(z: real, res: real, zmax: real)

  /** One iteration can move the plane from st: a hull exists there and its heave stiffness is not zero. */
  predicate Movable(at: Vec3 -> Option<HullState>, rho: real, g: real, st: HeaveState)
  {
    st.zmax >= 0.0 && Update(at, HeavePosition(st.z)).Some? && |Update(at, HeavePosition(st.z)).value.sfint| >= 1
    && HeaveStiffness(Update(at, HeavePosition(st.z)).value, rho, g) != 0.0
  }

  /** The search does not stop at st: it can move, and the residual there is not below the tolerance. */
  predicate Proceeds(at: Vec3 -> Option<HullState>, rho: real, g: real, mass: real, absTol: real, st: HeaveState)
  {
    Movable(at, rho, g, st) && Abs(MassResidual(Update(at, HeavePosition(st.z)).value, rho, mass)) >= absTol
  }

  /**
   * One pass of the heave loop from st: the residual at the current height,
   * the cap shrunk against the previous residual, and the plane moved down
   * by the clamped Newton step.
   */
  function HeaveStep(at: Vec3 -> Option<HullState>, rho: real, g: real, mass: real, st: HeaveState): (r: HeaveState)
    requires Movable(at, rho, g, st)
    ensures r.res == MassResidual(Update(at, HeavePosition(st.z)).value, rho, mass)
    ensures 0.0 <= r.zmax <= st.zmax
    ensures Abs(r.z - st.z) <= r.zmax
  {
    var hull := Update(at, HeavePosition(st.z)).value;
    var res := MassResidual(hull, rho, mass);
    var zmax := ShrinkCap(res, st.res, st.zmax);
    HeaveState(st.z - Clamp(NewtonStep(g, res, HeaveStiffness(hull, rho, g)), zmax), res, zmax)
  }

  /**
   * The state after n passes of the heave loop from the plane at z = 0
   * (a state from which no pass can be made is kept as it is).
   */
  function HeaveIter(at: Vec3 -> Option<HullState>, rho: real, g: real, mass: real, zmax0: real, n: nat): (r: HeaveState)
    requires zmax0 >= 0.0
    ensures 0.0 <= r.zmax <= zmax0
  {
    if n == 0 then HeaveState(0.0, 0.0, zmax0)
    else
      var p := HeaveIter(at, rho, g, mass, zmax0, n - 1);
      if Movable(at, rho, g, p) then HeaveStep(at, rho, g, mass, p) else p
  }

  /** After n passes the plane is at most n initial caps away from z = 0. */
  lemma {:induction false} HeaveIterReach(at: Vec3 -> Option<HullState>, rho: real, g: real, mass: real, zmax0: real, n: nat)
    requires zmax0 >= 0.0
    ensures Abs(HeaveIter(at, rho, g, mass, zmax0, n).z) <= Reach(n, zmax0)
  {
    if n > 0 {
      var p := HeaveIter(at, rho, g, mass, zmax0, n - 1);
      HeaveIterReach(at, rho, g, mass, zmax0, n - 1);
      var q := HeaveIter(at, rho, g, mass, zmax0, n);
      AccumulateBound(p.z, q.z - p.z, n - 1, zmax0);
    }
  }

  /** None of the first n iterates stopped the search. */
  ghost predicate Proceeded(at: Vec3 -> Option<HullState>, rho: real, g: real, mass: real, zmax0: real, absTol: real, n: nat)
    requires zmax0 >= 0.0
  {
    n == 0 || (Proceeded(at, rho, g, mass, zmax0, absTol, n - 1)
               && Proceeds(at, rho, g, mass, absTol, HeaveIter(at, rho, g, mass, zmax0, n - 1)))
  }

  /** Proceeded(n) says that each of the first n iterates went on. */
  lemma {:induction false} ProceededAt(at: Vec3 -> Option<HullState>, rho: real, g: real, mass: real, zmax0: real, absTol: real,
                                       n: nat, k: nat)
    requires zmax0 >= 0.0
    requires Proceeded(at, rho, g, mass, zmax0, absTol, n) && k < n
    ensures Proceeds(at, rho, g, mass, absTol, HeaveIter(at, rho, g, mass, zmax0, k))
  {
    if k < n - 1 {
      ProceededAt(at, rho, g, mass, zmax0, absTol, n - 1, k);
    }
  }

  /** From a state that can move, the next iterate is one heave step further. */
  lemma HeaveIterNext(at: Vec3 -> Option<HullState>, rho: real, g: real, mass: real, zmax0: real, n: nat)
    requires zmax0 >= 0.0
    requires Movable(at, rho, g, HeaveIter(at, rho, g, mass, zmax0, n))
    ensures HeaveIter(at, rho, g, mass, zmax0, n + 1) == HeaveStep(at, rho, g, mass, HeaveIter(at, rho, g, mass, zmax0, n))
  {
  }

  /**
   * One more pass of the heave loop from the n-th iterate, written out with
   * the values the loop computes, is the (n + 1)-th iterate.
   */
  lemma HeaveAdvance(at: Vec3 -> Option<HullState>, rho: real, g: real, mass: real, zmax0: real, absTol: real,
                     n: nat, hull: HullState, res: real, zmax: real, dz: real)
    requires zmax0 >= 0.0
    requires Proceeded(at, rho, g, mass, zmax0, absTol, n)
    requires Update(at, HeavePosition(HeaveIter(at, rho, g, mass, zmax0, n).z)) == Some(hull)
    requires |hull.sfint| >= 1 && HeaveStiffness(hull, rho, g) != 0.0
    requires res == MassResidual(hull, rho, mass) && Abs(res) >= absTol
    requires zmax == ShrinkCap(res, HeaveIter(at, rho, g, mass, zmax0, n).res, HeaveIter(at, rho, g, mass, zmax0, n).zmax)
    requires dz == Clamp(NewtonStep(g, res, HeaveStiffness(hull, rho, g)), zmax)
    ensures Proceeded(at, rho, g, mass, zmax0, absTol, n + 1)
    ensures HeaveIter(at, rho, g, mass, zmax0, n + 1) == HeaveState(HeaveIter(at, rho, g, mass, zmax0, n).z - dz, res, zmax)
  {
    var st := HeaveIter(at, rho, g, mass, zmax0, n);
    assert Proceeds(at, rho, g, mass, absTol, st);
    HeaveIterNext(at, rho, g, mass, zmax0, n);
    HeaveStepFrom(at, rho, g, mass, st, res, zmax, dz);
  }

  /** The heave step written out with the values the loop computes. */
  lemma HeaveStepFrom(at: Vec3 -> Option<HullState>, rho: real, g: real, mass: real, st: HeaveState,
                      res: real, zmax: real, dz: real)
    requires Movable(at, rho, g, st)
    requires res == MassResidual(Update(at, HeavePosition(st.z)).value, rho, mass)
    requires zmax == ShrinkCap(res, st.res, st.zmax)
    requires dz == Clamp(NewtonStep(g, res, HeaveStiffness(Update(at, HeavePosition(st.z)).value, rho, g)), zmax)
    ensures HeaveStep(at, rho, g, mass, st) == HeaveState(st.z - dz, res, zmax)
  {
  }

  /** The number of moves of the plane: a search stopped by the stiffness or the solver counted a pass without moving. */
  function Moves(outcome: Outcome, niter: nat): (m: nat)
    ensures m <= niter
  {
    if (outcome == ZeroStiffness || outcome == SingularMatrix) && niter > 0 then niter - 1 else niter
  }

  /**
   * The facts the heave search establishes where it stops, derived from the
   * moves it made and the reason it stopped.
   */
  lemma HeaveSettled(at: Vec3 -> Option<HullState>, rho: real, g: real, mass: real, zmax0: real, absTol: real,
                     outcome: Outcome, niter: nat, z: real, res: real, zmax: real, m: nat, st: HeaveState)
    requires ValidOracle(at)
    requires zmax0 >= 0.0
    requires niter <= MaxIter
    requires outcome == ZeroStiffness ==> niter >= 1
    requires m == Moves(outcome, niter)
    requires Proceeded(at, rho, g, mass, zmax0, absTol, m)
    requires st == HeaveIter(at, rho, g, mass, zmax0, m)
    requires z == st.z && zmax == st.zmax
    requires outcome == NotConverged || outcome == NoIntersection ==> res == st.res
    requires outcome == Converged ==> Update(at, HeavePosition(z)).Some? && res == MassResidual(Update(at, HeavePosition(z)).value, rho, mass)
                                      && Abs(res) < absTol && niter < MaxIter
    requires outcome == NotConverged ==> niter == MaxIter && Update(at, HeavePosition(z)).Some?
    requires outcome == ZeroStiffness ==> Update(at, HeavePosition(z)).Some? && res == MassResidual(Update(at, HeavePosition(z)).value, rho, mass)
                                          && Abs(res) >= absTol && HeaveStiffness(Update(at, HeavePosition(z)).value, rho, g) == 0.0
    requires outcome == NoIntersection ==> Update(at, HeavePosition(z)).None?
    requires outcome != SingularMatrix
    ensures niter <= MaxIter
    ensures 0.0 <= zmax <= zmax0
    ensures Abs(z) <= Reach(niter, zmax0)
    ensures outcome == ZeroStiffness ==> niter >= 1
    ensures forall k :: 0 <= k < Moves(outcome, niter) ==>
              Proceeds(at, rho, g, mass, absTol, HeaveIter(at, rho, g, mass, zmax0, k))
    ensures z == HeaveIter(at, rho, g, mass, zmax0, Moves(outcome, niter)).z
    ensures zmax == HeaveIter(at, rho, g, mass, zmax0, Moves(outcome, niter)).zmax
    ensures outcome == NotConverged || outcome == NoIntersection ==>
              res == HeaveIter(at, rho, g, mass, zmax0, niter).res
    ensures outcome == Converged || outcome == ZeroStiffness ==>
              Update(at, HeavePosition(z)).Some? && res == MassResidual(Update(at, HeavePosition(z)).value, rho, mass)
    ensures outcome == Converged <==> Update(at, HeavePosition(z)).Some? && Abs(res) < absTol
    ensures outcome == Converged ==> niter < MaxIter
    ensures outcome == NotConverged ==> niter == MaxIter && Abs(res) >= absTol && Update(at, HeavePosition(z)).Some?
    ensures outcome == ZeroStiffness ==> Abs(res) >= absTol && Update(at, HeavePosition(z)).Some?
                                         && HeaveStiffness(Update(at, HeavePosition(z)).value, rho, g) == 0.0
    ensures outcome == NoIntersection <==> Update(at, HeavePosition(z)).None?
    ensures outcome != SingularMatrix
  {
    forall k | 0 <= k < m
      ensures Proceeds(at, rho, g, mass, absTol, HeaveIter(at, rho, g, mass, zmax0, k))
    {
      ProceededAt(at, rho, g, mass, zmax0, absTol, m, k);
    }
    HeaveIterReach(at, rho, g, mass, zmax0, m);
    ReachGrows(m, niter, zmax0);
    if outcome == NotConverged {
      HeaveIterNext(at, rho, g, mass, zmax0, niter - 1);
    }
  }

  /**
   * Heave-only search: starting from the plane at z = 0, repeat at most
   * MaxIter times: residual rho V - m; stop when below the tolerance;
   * Newton step g res / (rho g S) limited to a cap that shrinks on each
   * sign change of the residual; move the plane down by the step.
   * The plane height and the cap are those of HeaveIter after the moves
   * made, every state before them went on, and the state where the search
   * stopped says why.
   */
  method SolveHeave(at: Vec3 -> Option<HullState>, rho: real, g: real, mass: real, zmax0: real, absTol: real)
    returns (outcome: Outcome, niter: nat, z: real, res: real, zmax: real)
    requires ValidOracle(at)
    requires zmax0 >= 0.0
    ensures niter <= MaxIter
    ensures 0.0 <= zmax <= zmax0
    ensures Abs(z) <= Reach(niter, zmax0)
    ensures outcome == ZeroStiffness ==> niter >= 1
    ensures forall k :: 0 <= k < Moves(outcome, niter) ==>
              Proceeds(at, rho, g, mass, absTol, HeaveIter(at, rho, g, mass, zmax0, k))
    ensures z == HeaveIter(at, rho, g, mass, zmax0, Moves(outcome, niter)).z
    ensures zmax == HeaveIter(at, rho, g, mass, zmax0, Moves(outcome, niter)).zmax
    ensures outcome == NotConverged || outcome == NoIntersection ==>
              res == HeaveIter(at, rho, g, mass, zmax0, niter).res
    ensures outcome == Converged || outcome == ZeroStiffness ==>
              Update(at, HeavePosition(z)).Some? && res == MassResidual(Update(at, HeavePosition(z)).value, rho, mass)
    ensures outcome == Converged <==> Update(at, HeavePosition(z)).Some? && Abs(res) < absTol
    ensures outcome == Converged ==> niter < MaxIter
    ensures outcome == NotConverged ==> niter == MaxIter && Abs(res) >= absTol && Update(at, HeavePosition(z)).Some?
    ensures outcome == ZeroStiffness ==> Abs(res) >= absTol && Update(at, HeavePosition(z)).Some?
                                         && HeaveStiffness(Update(at, HeavePosition(z)).value, rho, g) == 0.0
    ensures outcome == NoIntersection <==> Update(at, HeavePosition(z)).None?
    ensures outcome != SingularMatrix
  {
    niter, z, res, zmax := 0, 0.0, 0.0, zmax0;
    outcome := NoIntersection;
    ghost var moves := 0;
    ghost var st := HeaveState(z, res, zmax);
    var state := Update(at, HeavePosition(z));
    if state.Some? {
      var hull := state.value;
      while true
        invariant niter <= MaxIter && moves == niter
        invariant st == HeaveIter(at, rho, g, mass, zmax0, moves)
        invariant HeaveState(z, res, zmax) == st
        invariant Proceeded(at, rho, g, mass, zmax0, absTol, moves)
        invariant Update(at, HeavePosition(z)) == Some(hull)
        decreases MaxIter - niter
      {
        if niter == MaxIter {
          outcome := NotConverged;
          break;
        }
        var resOld := res;
        res := MassResidual(hull, rho, mass);
        if Abs(res) < absTol {
          outcome := Converged;
          break;
        }
        niter := niter + 1;
        var stiffness := HeaveStiffness(hull, rho, g);
        if stiffness == 0.0 {
          outcome := ZeroStiffness;
          break;
        }
        var dz := NewtonStep(g, res, stiffness);
        zmax := ShrinkCap(res, resOld, zmax);
        dz := Clamp(dz, zmax);
        HeaveAdvance(at, rho, g, mass, zmax0, absTol, moves, hull, res, zmax, dz);
        z := z - dz;
        moves, st := niter, HeaveState(z, res, zmax);
        state := Update(at, HeavePosition(z));
        if state.None? {
          outcome := NoIntersection;
          break;
        }
        hull := state.value;
      }
    }
    HeaveSettled(at, rho, g, mass, zmax0, absTol, outcome, niter, z, res, zmax, moves, st);
  }

  /**
   * The hull state with the clipping plane at -eta (`hsMesh.update(-eta)`),
   * the negation written out component by component.
   */
  function HullAt(at: Vec3 -> Option<HullState>, eta: Vec3): Option<HullState>
  {
    Update(at, Vec3(-eta.x, -eta.y, -eta.z))
  }

  /** The caps on the heave, roll and pitch steps. */
  datatype Caps = Caps(zmax: real, phimax: real, thetamax: real)

  predicate CapsWithin(c: Caps, c0: Caps)
  {
    0.0 <= c.zmax <= c0.zmax && 0.0 <= c.phimax <= c0.phimax && 0.0 <= c.thetamax <= c0.thetamax
  }

  /**
   * Cap update after the step `deta` following `prev`: a component whose
   * step changed sign has its cap reduced to the smaller of the jump in
   * that component and half the cap. As in the source, the pitch cap is
   * reduced when the HEAVE step changes sign, and by the jump of the ROLL
   * step.
   */
  function UpdateCaps(c: Caps, deta: Vec3, prev: Vec3): (r: Caps)
    requires c.zmax >= 0.0 && c.phimax >= 0.0 && c.thetamax >= 0.0
    ensures CapsWithin(r, c)
    ensures deta.x * prev.x >= 0.0 ==> r.zmax == c.zmax && r.thetamax == c.thetamax
    ensures deta.y * prev.y >= 0.0 ==> r.phimax == c.phimax
    ensures deta.x * prev.x < 0.0 ==> r.zmax == Min(Abs(deta.x - prev.x), c.zmax / 2.0)
    ensures deta.y * prev.y < 0.0 ==> r.phimax == Min(Abs(deta.y - prev.y), c.phimax / 2.0)
    ensures deta.x * prev.x < 0.0 ==> r.thetamax == Min(Abs(deta.y - prev.y), c.thetamax / 2.0)
  {
    var zmax := if deta.x * prev.x < 0.0 then Min(Abs(deta.x - prev.x), c.zmax / 2.0) else c.zmax;
    var phimax := if deta.y * prev.y < 0.0 then Min(Abs(deta.y - prev.y), c.phimax / 2.0) else c.phimax;
    var thetamax := if deta.x * prev.x < 0.0 then Min(Abs(deta.y - prev.y), c.thetamax / 2.0) else c.thetamax;
    Caps(zmax, phimax, thetamax)
  }

  /** A pitch step that reverses while the heave step keeps its sign leaves the pitch cap as it was. */
  lemma PitchReversalKeepsPitchCap(c: Caps)
    requires c.zmax >= 0.0 && c.phimax >= 0.0 && c.thetamax >= 0.0
    ensures UpdateCaps(c, Vec3(1.0, 0.0, -1.0), Vec3(1.0, 0.0, 1.0)).thetamax == c.thetamax
  {
  }

  /**
   * A heave reversal while the roll step stays the same sets the pitch cap
   * to zero: every later pitch step is clamped to 0.
   */
  lemma HeaveReversalFreezesPitch(c: Caps)
    requires c.zmax >= 0.0 && c.phimax >= 0.0 && c.thetamax >= 0.0
    ensures UpdateCaps(c, Vec3(-1.0, 0.5, 0.0), Vec3(1.0, 0.5, 0.0)).thetamax == 0.0
  {
  }

  /** The three clamps of a step by the caps. */
  function ClampStep(deta: Vec3, c: Caps): (r: Vec3)
    requires c.zmax >= 0.0 && c.phimax >= 0.0 && c.thetamax >= 0.0
    ensures Abs(r.x) <= c.zmax && Abs(r.y) <= c.phimax && Abs(r.z) <= c.thetamax
    ensures Abs(deta.x) <= c.zmax ==> r.x == deta.x
    ensures Abs(deta.y) <= c.phimax ==> r.y == deta.y
    ensures Abs(deta.z) <= c.thetamax ==> r.z == deta.z
  {
    Vec3(Clamp(deta.x, c.zmax), Clamp(deta.y, c.phimax), Clamp(deta.z, c.thetamax))
  }

  /** `(np.fabs(res) < abs_tol).all()` */
  predicate Balanced(res: Vec3, absTol: real)
  {
    Abs(res.x) < absTol && Abs(res.y) < absTol && Abs(res.z) < absTol
  }

  /** The residual of the hull state, as the search computes it. */
  function HullResidual(h: HullState, rho: real, g: real, mass: real): Vec3
  {
    Residual(rho, g, h.vw, h.cwPlane, mass, h.cogPlane)
  }

  /** The hydrostatic stiffness matrix of a hull state (`get_hydrostatic_stiffness_matrix`). */
  function HullStiffness(h: HullState, rho: real, g: real): seq<seq<real>>
    requires ValidHull(h)
  {
    StiffnessMatrix(h.sfint, h.vw, h.zc, h.zg, rho, g)
  }

  /** `np.linalg.solve(K, r)` as given by the oracle `linsolve`. */
  function Solve(linsolve: (seq<seq<real>>, Vec3) -> Option<Vec3>, K: seq<seq<real>>, r: Vec3): Option<Vec3>
  {
    linsolve(K, r)
  }

  /** `deta[0] *= Re0[2, 2]`: the heave part of a solved step scaled by r33. */
  function ScaleHeave(d: Vec3, r33: real): (r: Vec3)
    ensures r.y == d.y && r.z == d.z
  {
    d.(x := d.x * r33)
  }

  predicate NonNegCaps(c: Caps)
  {
    c.zmax >= 0.0 && c.phimax >= 0.0 && c.thetamax >= 0.0
  }

  /**
   * The variables the heave/roll/pitch search carries from one iteration to
   * the next: eta, the residual of the previous iteration, the caps and the
   * previous (clamped) step.
   */
  datatype SixDofState = SixDofState(eta: Vec3, res: Vec3, caps: Caps, deta: Vec3)

  /** One iteration can move the plane from st: a hull exists at -eta and its stiffness system is solvable. */
  predicate Solvable(at: Vec3 -> Option<HullState>, linsolve: (seq<seq<real>>, Vec3) -> Option<Vec3>,
                     rho: real, g: real, mass: real, st: SixDofState)
  {
    NonNegCaps(st.caps) && HullAt(at, st.eta).Some? && ValidHull(HullAt(at, st.eta).value)
    && Solve(linsolve, HullStiffness(HullAt(at, st.eta).value, rho, g),
             HullResidual(HullAt(at, st.eta).value, rho, g, mass)).Some?
  }

  /** The search does not stop at st: it can move, and the residual there is not balanced. */
  predicate Advances(at: Vec3 -> Option<HullState>, linsolve: (seq<seq<real>>, Vec3) -> Option<Vec3>,
                     rho: real, g: real, mass: real, absTol: real, st: SixDofState)
  {
    Solvable(at, linsolve, rho, g, mass, st) && !Balanced(HullResidual(HullAt(at, st.eta).value, rho, g, mass), absTol)
  }

  /**
   * One pass of the heave/roll/pitch loop from st: the residual at -eta, the
   * solved step with its heave part scaled, the caps updated against the
   * previous step, the step clamped and added to eta.
   */
  function SixDofStep(at: Vec3 -> Option<HullState>, linsolve: (seq<seq<real>>, Vec3) -> Option<Vec3>,
                      rho: real, g: real, mass: real, st: SixDofState): (r: SixDofState)
    requires Solvable(at, linsolve, rho, g, mass, st)
    ensures r.res == HullResidual(HullAt(at, st.eta).value, rho, g, mass)
    ensures CapsWithin(r.caps, st.caps)
    ensures r.eta == Add(st.eta, r.deta)
    ensures Abs(r.deta.x) <= r.caps.zmax && Abs(r.deta.y) <= r.caps.phimax && Abs(r.deta.z) <= r.caps.thetamax
  {
    var hull := HullAt(at, st.eta).value;
    var res := HullResidual(hull, rho, g, mass);
    var deta := ScaleHeave(Solve(linsolve, HullStiffness(hull, rho, g), res).value, hull.r33);
    var caps := UpdateCaps(st.caps, deta, st.deta);
    var step := ClampStep(deta, caps);
    SixDofState(Add(st.eta, step), res, caps, step)
  }

  /** The state from which the heave/roll/pitch loop starts: eta, res and deta zero, the initial caps. */
  function SixDofStart(caps0: Caps): SixDofState
  {
    SixDofState(Vec3(0.0, 0.0, 0.0), Vec3(0.0, 0.0, 0.0), caps0, Vec3(0.0, 0.0, 0.0))
  }

  /**
   * The state after one more pass of the loop from st; a state from which
   * no pass can be made is kept as it is. Each component of eta moves by at
   * most its cap.
   */
  function SixDofNext(at: Vec3 -> Option<HullState>, linsolve: (seq<seq<real>>, Vec3) -> Option<Vec3>,
                      rho: real, g: real, mass: real, st: SixDofState): (r: SixDofState)
    requires NonNegCaps(st.caps)
    ensures CapsWithin(r.caps, st.caps)
    ensures Abs(r.eta.x - st.eta.x) <= st.caps.zmax
    ensures Abs(r.eta.y - st.eta.y) <= st.caps.phimax
    ensures Abs(r.eta.z - st.eta.z) <= st.caps.thetamax
  {
    if Solvable(at, linsolve, rho, g, mass, st) then SixDofStep(at, linsolve, rho, g, mass, st) else st
  }

  /** The state after k passes of the loop from st. */
  function SixDofRun(at: Vec3 -> Option<HullState>, linsolve: (seq<seq<real>>, Vec3) -> Option<Vec3>,
                     rho: real, g: real, mass: real, st: SixDofState, k: nat): (r: SixDofState)
    requires NonNegCaps(st.caps)
    ensures CapsWithin(r.caps, st.caps)
    decreases k, 1
  {
    if k == 0 then st else SixDofRunOn(at, linsolve, rho, g, mass, st, k)
  }

  /** The state after k > 0 passes from st: k - 1 passes after the first. */
  function SixDofRunOn(at: Vec3 -> Option<HullState>, linsolve: (seq<seq<real>>, Vec3) -> Option<Vec3>,
                       rho: real, g: real, mass: real, st: SixDofState, k: nat): (r: SixDofState)
    requires NonNegCaps(st.caps) && k > 0
    ensures CapsWithin(r.caps, st.caps)
    decreases k, 0
  {
    SixDofRun(at, linsolve, rho, g, mass, SixDofNext(at, linsolve, rho, g, mass, st), k - 1)
  }

  /** The state after n passes of the heave/roll/pitch loop from eta = 0. */
  function SixDofIter(at: Vec3 -> Option<HullState>, linsolve: (seq<seq<real>>, Vec3) -> Option<Vec3>,
                      rho: real, g: real, mass: real, caps0: Caps, n: nat): (r: SixDofState)
    requires NonNegCaps(caps0)
    ensures CapsWithin(r.caps, caps0)
  {
    SixDofRun(at, linsolve, rho, g, mass, SixDofStart(caps0), n)
  }

  /** k + 1 passes are one pass after k passes. */
  lemma {:induction false} SixDofRunNext(at: Vec3 -> Option<HullState>, linsolve: (seq<seq<real>>, Vec3) -> Option<Vec3>,
                                         rho: real, g: real, mass: real, st: SixDofState, k: nat)
    requires NonNegCaps(st.caps)
    ensures SixDofRun(at, linsolve, rho, g, mass, st, k + 1)
            == SixDofNext(at, linsolve, rho, g, mass, SixDofRun(at, linsolve, rho, g, mass, st, k))
    decreases k
  {
    if k > 0 {
      SixDofRunNext(at, linsolve, rho, g, mass, SixDofNext(at, linsolve, rho, g, mass, st), k - 1);
    }
  }

  /** The n-th pass moves each component of eta by at most its initial cap. */
  lemma SixDofIterMove(at: Vec3 -> Option<HullState>, linsolve: (seq<seq<real>>, Vec3) -> Option<Vec3>,
                       rho: real, g: real, mass: real, caps0: Caps, n: nat)
    requires NonNegCaps(caps0) && n > 0
    ensures var p := SixDofIter(at, linsolve, rho, g, mass, caps0, n - 1).eta;
            var q := SixDofIter(at, linsolve, rho, g, mass, caps0, n).eta;
            Abs(q.x - p.x) <= caps0.zmax && Abs(q.y - p.y) <= caps0.phimax && Abs(q.z - p.z) <= caps0.thetamax
  {
    SixDofRunNext(at, linsolve, rho, g, mass, SixDofStart(caps0), n - 1);
  }

  /** After n passes each component of eta is at most n initial caps away from 0. */
  lemma {:induction false} SixDofIterReach(at: Vec3 -> Option<HullState>, linsolve: (seq<seq<real>>, Vec3) -> Option<Vec3>,
                                           rho: real, g: real, mass: real, caps0: Caps, n: nat)
    requires NonNegCaps(caps0)
    ensures var eta := SixDofIter(at, linsolve, rho, g, mass, caps0, n).eta;
            Abs(eta.x) <= Reach(n, caps0.zmax) && Abs(eta.y) <= Reach(n, caps0.phimax) && Abs(eta.z) <= Reach(n, caps0.thetamax)
  {
    if n > 0 {
      var p := SixDofIter(at, linsolve, rho, g, mass, caps0, n - 1).eta;
      var q := SixDofIter(at, linsolve, rho, g, mass, caps0, n).eta;
      SixDofIterReach(at, linsolve, rho, g, mass, caps0, n - 1);
      SixDofIterMove(at, linsolve, rho, g, mass, caps0, n);
      AccumulateBound(p.x, q.x - p.x, n - 1, caps0.zmax);
      AccumulateBound(p.y, q.y - p.y, n - 1, caps0.phimax);
      AccumulateBound(p.z, q.z - p.z, n - 1, caps0.thetamax);
    }
  }

  /** Each of the k passes from st is made from a state where the search goes on. */
  ghost predicate AdvancedFrom(at: Vec3 -> Option<HullState>, linsolve: (seq<seq<real>>, Vec3) -> Option<Vec3>,
                               rho: real, g: real, mass: real, absTol: real, st: SixDofState, k: nat)
    requires NonNegCaps(st.caps)
    decreases k, 1
  {
    k == 0 || AdvancedPass(at, linsolve, rho, g, mass, absTol, st, k)
  }

  /** The first of k > 0 passes from st is made from a state where the search goes on, and so are the others. */
  ghost predicate AdvancedPass(at: Vec3 -> Option<HullState>, linsolve: (seq<seq<real>>, Vec3) -> Option<Vec3>,
                               rho: real, g: real, mass: real, absTol: real, st: SixDofState, k: nat)
    requires NonNegCaps(st.caps) && k > 0
    decreases k, 0
  {
    Advances(at, linsolve, rho, g, mass, absTol, st)
    && AdvancedFrom(at, linsolve, rho, g, mass, absTol, SixDofNext(at, linsolve, rho, g, mass, st), k - 1)
  }

  /** AdvancedFrom(st, k) says that each of the first k states from st went on. */
  lemma {:induction false} AdvancedAt(at: Vec3 -> Option<HullState>, linsolve: (seq<seq<real>>, Vec3) -> Option<Vec3>,
                                      rho: real, g: real, mass: real, absTol: real, st: SixDofState, k: nat, j: nat)
    requires NonNegCaps(st.caps)
    requires AdvancedFrom(at, linsolve, rho, g, mass, absTol, st, k) && j < k
    ensures Advances(at, linsolve, rho, g, mass, absTol, SixDofRun(at, linsolve, rho, g, mass, st, j))
    decreases j
  {
    assert AdvancedPass(at, linsolve, rho, g, mass, absTol, st, k);
    if j > 0 {
      var next := SixDofNext(at, linsolve, rho, g, mass, st);
      AdvancedAt(at, linsolve, rho, g, mass, absTol, next, k - 1, j - 1);
      assert SixDofRun(at, linsolve, rho, g, mass, st, j) == SixDofRunOn(at, linsolve, rho, g, mass, st, j);
    }
  }

  /** If the first k states from st went on and so does the k-th, the first k + 1 went on. */
  lemma {:induction false} AdvancedExtend(at: Vec3 -> Option<HullState>, linsolve: (seq<seq<real>>, Vec3) -> Option<Vec3>,
                                          rho: real, g: real, mass: real, absTol: real, st: SixDofState, k: nat)
    requires NonNegCaps(st.caps)
    requires AdvancedFrom(at, linsolve, rho, g, mass, absTol, st, k)
    requires Advances(at, linsolve, rho, g, mass, absTol, SixDofRun(at, linsolve, rho, g, mass, st, k))
    ensures AdvancedFrom(at, linsolve, rho, g, mass, absTol, st, k + 1)
    decreases k
  {
    var next := SixDofNext(at, linsolve, rho, g, mass, st);
    if k > 0 {
      assert AdvancedPass(at, linsolve, rho, g, mass, absTol, st, k);
      assert SixDofRun(at, linsolve, rho, g, mass, st, k) == SixDofRunOn(at, linsolve, rho, g, mass, st, k);
      AdvancedExtend(at, linsolve, rho, g, mass, absTol, next, k - 1);
    }
    assert AdvancedPass(at, linsolve, rho, g, mass, absTol, st, k + 1);
  }

  /** The six-dof step written out with the values the loop computes. */
  lemma SixDofStepFrom(at: Vec3 -> Option<HullState>, linsolve: (seq<seq<real>>, Vec3) -> Option<Vec3>,
                       rho: real, g: real, mass: real, st: SixDofState, res: Vec3, caps: Caps, deta: Vec3)
    requires Solvable(at, linsolve, rho, g, mass, st)
    requires res == HullResidual(HullAt(at, st.eta).value, rho, g, mass)
    requires caps == UpdateCaps(st.caps, ScaleHeave(Solve(linsolve, HullStiffness(HullAt(at, st.eta).value, rho, g), res).value,
                                                    HullAt(at, st.eta).value.r33), st.deta)
    requires deta == ClampStep(ScaleHeave(Solve(linsolve, HullStiffness(HullAt(at, st.eta).value, rho, g), res).value,
                                          HullAt(at, st.eta).value.r33), caps)
    ensures SixDofStep(at, linsolve, rho, g, mass, st) == SixDofState(Add(st.eta, deta), res, caps, deta)
  {
  }

  /**
   * One more pass of the heave/roll/pitch loop from the n-th iterate, written
   * out with the values the loop computes, is the (n + 1)-th iterate.
   */
  lemma SixDofAdvance(at: Vec3 -> Option<HullState>, linsolve: (seq<seq<real>>, Vec3) -> Option<Vec3>,
                      rho: real, g: real, mass: real, caps0: Caps, absTol: real,
                      n: nat, hull: HullState, res: Vec3, solved: Vec3, caps: Caps, deta: Vec3)
    requires NonNegCaps(caps0)
    requires AdvancedFrom(at, linsolve, rho, g, mass, absTol, SixDofStart(caps0), n)
    requires HullAt(at, SixDofIter(at, linsolve, rho, g, mass, caps0, n).eta) == Some(hull)
    requires ValidHull(hull)
    requires res == HullResidual(hull, rho, g, mass) && !Balanced(res, absTol)
    requires Solve(linsolve, HullStiffness(hull, rho, g), res) == Some(solved)
    requires caps == UpdateCaps(SixDofIter(at, linsolve, rho, g, mass, caps0, n).caps, ScaleHeave(solved, hull.r33),
                                SixDofIter(at, linsolve, rho, g, mass, caps0, n).deta)
    requires deta == ClampStep(ScaleHeave(solved, hull.r33), caps)
    ensures AdvancedFrom(at, linsolve, rho, g, mass, absTol, SixDofStart(caps0), n + 1)
    ensures SixDofIter(at, linsolve, rho, g, mass, caps0, n + 1)
            == SixDofState(Add(SixDofIter(at, linsolve, rho, g, mass, caps0, n).eta, deta), res, caps, deta)
  {
    var st := SixDofIter(at, linsolve, rho, g, mass, caps0, n);
    assert Advances(at, linsolve, rho, g, mass, absTol, st);
    AdvancedExtend(at, linsolve, rho, g, mass, absTol, SixDofStart(caps0), n);
    SixDofRunNext(at, linsolve, rho, g, mass, SixDofStart(caps0), n);
    SixDofStepFrom(at, linsolve, rho, g, mass, st, res, caps, deta);
  }

  /**
   * The facts the heave/roll/pitch search establishes where it stops,
   * derived from the moves it made and the reason it stopped.
   */
  lemma SixDofSettled(at: Vec3 -> Option<HullState>, linsolve: (seq<seq<real>>, Vec3) -> Option<Vec3>,
                      rho: real, g: real, mass: real, caps0: Caps, absTol: real,
                      outcome: Outcome, niter: nat, eta: Vec3, res: Vec3, caps: Caps, m: nat, st: SixDofState)
    requires ValidOracle(at)
    requires NonNegCaps(caps0)
    requires niter <= MaxIter
    requires outcome == SingularMatrix ==> niter >= 1
    requires m == Moves(outcome, niter)
    requires AdvancedFrom(at, linsolve, rho, g, mass, absTol, SixDofStart(caps0), m)
    requires st == SixDofIter(at, linsolve, rho, g, mass, caps0, m)
    requires eta == st.eta && caps == st.caps
    requires outcome == NotConverged || outcome == NoIntersection ==> res == st.res
    requires outcome == Converged ==> HullAt(at, eta).Some? && res == HullResidual(HullAt(at, eta).value, rho, g, mass)
                                      && Balanced(res, absTol) && niter < MaxIter
    requires outcome == NotConverged ==> niter == MaxIter && HullAt(at, eta).Some?
    requires outcome == SingularMatrix ==> HullAt(at, eta).Some? && res == HullResidual(HullAt(at, eta).value, rho, g, mass)
                                           && !Balanced(res, absTol)
                                           && Solve(linsolve, HullStiffness(HullAt(at, eta).value, rho, g), res).None?
    requires outcome == NoIntersection ==> HullAt(at, eta).None?
    requires outcome != ZeroStiffness
    ensures niter <= MaxIter
    ensures CapsWithin(caps, caps0)
    ensures Abs(eta.x) <= Reach(niter, caps0.zmax)
    ensures Abs(eta.y) <= Reach(niter, caps0.phimax)
    ensures Abs(eta.z) <= Reach(niter, caps0.thetamax)
    ensures outcome == SingularMatrix ==> niter >= 1
    ensures forall k :: 0 <= k < Moves(outcome, niter) ==>
              Advances(at, linsolve, rho, g, mass, absTol, SixDofIter(at, linsolve, rho, g, mass, caps0, k))
    ensures eta == SixDofIter(at, linsolve, rho, g, mass, caps0, Moves(outcome, niter)).eta
    ensures caps == SixDofIter(at, linsolve, rho, g, mass, caps0, Moves(outcome, niter)).caps
    ensures outcome == NotConverged || outcome == NoIntersection ==>
              res == SixDofIter(at, linsolve, rho, g, mass, caps0, niter).res
    ensures outcome == Converged || outcome == SingularMatrix ==>
              HullAt(at, eta).Some? && res == HullResidual(HullAt(at, eta).value, rho, g, mass)
    ensures outcome == Converged <==> HullAt(at, eta).Some? && Balanced(res, absTol)
    ensures outcome == Converged ==> niter < MaxIter
    ensures outcome == NotConverged ==> niter == MaxIter && !Balanced(res, absTol) && HullAt(at, eta).Some?
    ensures outcome == SingularMatrix ==> HullAt(at, eta).Some? && !Balanced(res, absTol)
                                          && Solve(linsolve, HullStiffness(HullAt(at, eta).value, rho, g), res).None?
    ensures outcome == NoIntersection <==> HullAt(at, eta).None?
    ensures outcome != ZeroStiffness
  {
    forall k | 0 <= k < m
      ensures Advances(at, linsolve, rho, g, mass, absTol, SixDofIter(at, linsolve, rho, g, mass, caps0, k))
    {
      AdvancedAt(at, linsolve, rho, g, mass, absTol, SixDofStart(caps0), m, k);
    }
    SixDofIterReach(at, linsolve, rho, g, mass, caps0, m);
    ReachGrows(m, niter, caps0.zmax);
    ReachGrows(m, niter, caps0.phimax);
    ReachGrows(m, niter, caps0.thetamax);
    if outcome == NotConverged {
      var p := SixDofIter(at, linsolve, rho, g, mass, caps0, niter - 1);
      AdvancedAt(at, linsolve, rho, g, mass, absTol, SixDofStart(caps0), m, niter - 1);
      SixDofRunNext(at, linsolve, rho, g, mass, SixDofStart(caps0), niter - 1);
      assert res == SixDofStep(at, linsolve, rho, g, mass, p).res;
    }
  }

  /**
   * The move of one pass of the heave/roll/pitch loop, once the stiffness
   * system is solved: the heave part of the solution scaled by r33, the caps
   * updated against the previous step, the step clamped and added to eta.
   */
  method SixDofMove(at: Vec3 -> Option<HullState>, linsolve: (seq<seq<real>>, Vec3) -> Option<Vec3>,
                    rho: real, g: real, mass: real, caps0: Caps, absTol: real,
                    ghost n: nat, ghost st: SixDofState, hull: HullState, res: Vec3, solved: Vec3, eta: Vec3, caps: Caps, deta: Vec3)
    returns (eta': Vec3, caps': Caps, deta': Vec3, ghost st': SixDofState)
    requires NonNegCaps(caps0)
    requires st == SixDofIter(at, linsolve, rho, g, mass, caps0, n)
    requires st.eta == eta && st.caps == caps && st.deta == deta
    requires AdvancedFrom(at, linsolve, rho, g, mass, absTol, SixDofStart(caps0), n)
    requires HullAt(at, eta) == Some(hull) && ValidHull(hull)
    requires res == HullResidual(hull, rho, g, mass) && !Balanced(res, absTol)
    requires Solve(linsolve, HullStiffness(hull, rho, g), res) == Some(solved)
    ensures st' == SixDofIter(at, linsolve, rho, g, mass, caps0, n + 1)
    ensures st' == SixDofState(eta', res, caps', deta')
    ensures AdvancedFrom(at, linsolve, rho, g, mass, absTol, SixDofStart(caps0), n + 1)
    ensures eta' == SixDofIter(at, linsolve, rho, g, mass, caps0, n + 1).eta
    ensures caps' == SixDofIter(at, linsolve, rho, g, mass, caps0, n + 1).caps
    ensures deta' == SixDofIter(at, linsolve, rho, g, mass, caps0, n + 1).deta
  {
    deta' := ScaleHeave(solved, hull.r33);
    caps' := UpdateCaps(caps, deta', deta);
    deta' := ClampStep(deta', caps');
    SixDofAdvance(at, linsolve, rho, g, mass, caps0, absTol, n, hull, res, solved, caps', deta');
    eta' := Add(eta, deta');
    st' := SixDofState(eta', res, caps', deta');
  }

  /**
   * Heave/roll/pitch search: the plane sits at -eta; at most MaxIter times:
   * residual of forces and moments; stop when all three are below the
   * tolerance; solve the stiffness system for the step (its heave part
   * scaled by Re0[2, 2]); shrink the caps; clamp; add the step to eta.
   * `linsolve` is `np.linalg.solve`, None for a singular matrix.
   * eta and the caps are those of SixDofIter after the moves made, every
   * state before them went on, and the state where the search stopped says
   * why.
   */
  method SolveSixDof(at: Vec3 -> Option<HullState>, linsolve: (seq<seq<real>>, Vec3) -> Option<Vec3>,
                     rho: real, g: real, mass: real, caps0: Caps, absTol: real)
    returns (outcome: Outcome, niter: nat, eta: Vec3, res: Vec3, caps: Caps)
    requires ValidOracle(at)
    requires caps0.zmax >= 0.0 && caps0.phimax >= 0.0 && caps0.thetamax >= 0.0
    ensures niter <= MaxIter
    ensures CapsWithin(caps, caps0)
    ensures Abs(eta.x) <= Reach(niter, caps0.zmax)
    ensures Abs(eta.y) <= Reach(niter, caps0.phimax)
    ensures Abs(eta.z) <= Reach(niter, caps0.thetamax)
    ensures outcome == SingularMatrix ==> niter >= 1
    ensures forall k :: 0 <= k < Moves(outcome, niter) ==>
              Advances(at, linsolve, rho, g, mass, absTol, SixDofIter(at, linsolve, rho, g, mass, caps0, k))
    ensures eta == SixDofIter(at, linsolve, rho, g, mass, caps0, Moves(outcome, niter)).eta
    ensures caps == SixDofIter(at, linsolve, rho, g, mass, caps0, Moves(outcome, niter)).caps
    ensures outcome == NotConverged || outcome == NoIntersection ==>
              res == SixDofIter(at, linsolve, rho, g, mass, caps0, niter).res
    ensures outcome == Converged || outcome == SingularMatrix ==>
              HullAt(at, eta).Some? && res == HullResidual(HullAt(at, eta).value, rho, g, mass)
    ensures outcome == Converged <==> HullAt(at, eta).Some? && Balanced(res, absTol)
    ensures outcome == Converged ==> niter < MaxIter
    ensures outcome == NotConverged ==> niter == MaxIter && !Balanced(res, absTol) && HullAt(at, eta).Some?
    ensures outcome == SingularMatrix ==> HullAt(at, eta).Some? && !Balanced(res, absTol)
                                          && Solve(linsolve, HullStiffness(HullAt(at, eta).value, rho, g), res).None?
    ensures outcome == NoIntersection <==> HullAt(at, eta).None?
    ensures outcome != ZeroStiffness
  {
    niter, eta, res, caps := 0, Vec3(0.0, 0.0, 0.0), Vec3(0.0, 0.0, 0.0), caps0;
    outcome := NoIntersection;
    ghost var moves := 0;
    ghost var st := SixDofStart(caps0);
    var deta := Vec3(0.0, 0.0, 0.0);
    var state := HullAt(at, eta);
    if state.Some? {
      var hull := state.value;
      while true
        invariant niter <= MaxIter && moves == niter
        invariant st == SixDofIter(at, linsolve, rho, g, mass, caps0, moves)
        invariant SixDofState(eta, res, caps, deta) == st
        invariant AdvancedFrom(at, linsolve, rho, g, mass, absTol, SixDofStart(caps0), moves)
        invariant HullAt(at, eta) == Some(hull)
        decreases MaxIter - niter
      {
        if niter == MaxIter {
          outcome := NotConverged;
          break;
        }
        res := HullResidual(hull, rho, g, mass);
        if Balanced(res, absTol) {
          outcome := Converged;
          break;
        }
        niter := niter + 1;
        var khs := HullStiffness(hull, rho, g);
        var solved := Solve(linsolve, khs, res);
        if solved.None? {
          outcome := SingularMatrix;
          break;
        }
        eta, caps, deta, st := SixDofMove(at, linsolve, rho, g, mass, caps0, absTol, moves, st, hull, res, solved.value, eta, caps, deta);
        moves := niter;
        state := HullAt(at, eta);
        if state.None? {
          outcome := NoIntersection;
          break;
        }
        hull := state.value;
      }
    }
    SixDofSettled(at, linsolve, rho, g, mass, caps0, absTol, outcome, niter, eta, res, caps, moves, st);
  }
}
