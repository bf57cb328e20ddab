/**
 * Rigid-body and connectivity utilities of meshmagick.py: translate,
 * translate_1D, scale and flip_normals.
 */
module Transforms {
  import opened Geometry
  import opened Mesh

  datatype TransformError = UnknownAxis

  /** Every vertex moved by P. */
  function Translated(s: seq<Vec3>, p: Vec3): (r: seq<Vec3>)
    ensures |r| == |s|
  {
    seq(|s|, i requires 0 <= i < |s| => Add(s[i], p))
  }

  /** Translating by P and then by -P gives back the vertices. */
  lemma TranslateInverse(s: seq<Vec3>, p: Vec3)
    ensures Translated(Translated(s, p), Neg(p)) == s
  {
    var r := Translated(Translated(s, p), Neg(p));
    assert forall i :: 0 <= i < |s| ==> r[i] == s[i];
  }

  /** Two translations compose into one by the sum of their vectors. */
  lemma TranslateCompose(s: seq<Vec3>, p: Vec3, q: Vec3)
    ensures Translated(Translated(s, p), q) == Translated(s, Add(p, q))
  {
    var r := Translated(Translated(s, p), q);
    var r' := Translated(s, Add(p, q));
    assert forall i :: 0 <= i < |s| ==> r[i] == r'[i];
  }

  /**
   * `translate(V, P)`: adds P to every row of V in place. (The vector is typed
   * Vec3 here, so the RuntimeError for a vector of the wrong size cannot occur.)
   */
  method Translate(V: array<Vec3>, p: Vec3)
    modifies V
    ensures V[..] == Translated(old(V[..]), p)
  {
    var i := 0;
    while i < V.Length
      invariant 0 <= i <= V.Length
      invariant forall k :: 0 <= k < i ==> V[k] == Add(old(V[k]), p)
      invariant forall k :: i <= k < V.Length ==> V[k] == old(V[k])
    {
      V[i] := Add(V[i], p);
      i := i + 1;
    }
  }

  /** Column selected by the `ddl` string of `translate_1D`. */
  function AxisOf(ddl: string): (j: int)
    ensures -1 <= j < 3
    ensures j == 0 <==> ddl == "x"
    ensures j == 1 <==> ddl == "y"
    ensures j == 2 <==> ddl == "z"
  {
    if ddl == "x" then 0 else if ddl == "y" then 1 else if ddl == "z" then 2 else -1
  }

  /** Unit vector of column j scaled by t. */
  function AxisVector(j: int, t: real): Vec3
    requires 0 <= j < 3
  {
    if j == 0 then Vec3(t, 0.0, 0.0) else if j == 1 then Vec3(0.0, t, 0.0) else Vec3(0.0, 0.0, t)
  }

  /** Column j of every vertex increased by t. */
  function ShiftedAxis(s: seq<Vec3>, j: int, t: real): (r: seq<Vec3>)
    requires 0 <= j < 3
    ensures |r| == |s|
    ensures forall i :: 0 <= i < |s| ==> forall c :: 0 <= c < 3 ==>
      Coord(r[i], c) == Coord(s[i], c) + (if c == j then t else 0.0)
  {
    seq(|s|, i requires 0 <= i < |s| =>
      if j == 0 then Vec3(s[i].x + t, s[i].y, s[i].z)
      else if j == 1 then Vec3(s[i].x, s[i].y + t, s[i].z)
      else Vec3(s[i].x, s[i].y, s[i].z + t))
  }

  /** `translate_1D` is `translate` by the axis vector. */
  lemma ShiftedAxisIsTranslation(s: seq<Vec3>, j: int, t: real)
    requires 0 <= j < 3
    ensures ShiftedAxis(s, j, t) == Translated(s, AxisVector(j, t))
  {
    var a := ShiftedAxis(s, j, t);
    var b := Translated(s, AxisVector(j, t));
    forall i | 0 <= i < |s| ensures a[i] == b[i] {
      assert Coord(a[i], 0) == Coord(b[i], 0);
      assert Coord(a[i], 1) == Coord(b[i], 1);
      assert Coord(a[i], 2) == Coord(b[i], 2);
    }
  }

  /**
   * `translate_1D(V, t, ddl)`: adds t to column x, y or z in place; any other
   * `ddl` raises (IOError), leaving V untouched.
   */
  method Translate1D(V: array<Vec3>, t: real, ddl: string) returns (ok: bool)
    modifies V
    ensures ok <==> ddl == "x" || ddl == "y" || ddl == "z"
    ensures ok ==> V[..] == ShiftedAxis(old(V[..]), AxisOf(ddl), t)
    ensures !ok ==> V[..] == old(V[..])
  {
    var j := AxisOf(ddl);
    if j < 0 {
      return false;
    }
    ok := true;
    var i := 0;
    while i < V.Length
      invariant 0 <= i <= V.Length
      invariant forall k :: 0 <= k < i ==> V[k] == ShiftedAxis(old(V[..]), j, t)[k]
      invariant forall k :: i <= k < V.Length ==> V[k] == old(V[k])
    {
      V[i] := if j == 0 then Vec3(V[i].x + t, V[i].y, V[i].z)
              else if j == 1 then Vec3(V[i].x, V[i].y + t, V[i].z)
              else Vec3(V[i].x, V[i].y, V[i].z + t);
      i := i + 1;
    }
  }

  /** `scale(V, alpha)`: alpha * V. */
  function Scaled(s: seq<Vec3>, alpha: real): (r: seq<Vec3>)
    ensures |r| == |s|
  {
    seq(|s|, i requires 0 <= i < |s| => Scale(alpha, s[i]))
  }

  /** Scaling by a non-zero factor is undone by scaling by its inverse. */
  lemma ScaleInverse(s: seq<Vec3>, alpha: real)
    requires alpha != 0.0
    ensures Scaled(Scaled(s, alpha), 1.0 / alpha) == s
  {
    var r := Scaled(Scaled(s, alpha), 1.0 / alpha);
    assert (1.0 / alpha) * alpha == 1.0;
    forall i | 0 <= i < |s| ensures r[i] == s[i] {
      assert r[i].x == (1.0 / alpha) * (alpha * s[i].x);
      assert r[i].y == (1.0 / alpha) * (alpha * s[i].y);
      assert r[i].z == (1.0 / alpha) * (alpha * s[i].z);
    }
  }

  /** `flip_normals(F)`: `np.fliplr`, every row reversed. */
  function FlipNormals(F: seq<seq<int>>): (r: seq<seq<int>>)
    ensures |r| == |F|
  {
    seq(|F|, i requires 0 <= i < |F| => Reverse(F[i]))
  }

  /** Flipping twice gives back the faces. */
  lemma FlipNormalsInvolution(F: seq<seq<int>>)
    ensures FlipNormals(FlipNormals(F)) == F
  {
    var r := FlipNormals(FlipNormals(F));
    forall i | 0 <= i < |F| ensures r[i] == F[i] {
      assert |r[i]| == |F[i]|;
      assert forall k :: 0 <= k < |F[i]| ==> r[i][k] == F[i][k];
    }
  }

  /**
   * A flipped row keeps its ids, a triangle [a, b, c, a] becomes [a, c, b, a]
   * and stays a triangle, and a quadrangle stays a quadrangle.
   */
  lemma FlipNormalsRows(F: seq<seq<int>>, nv: int)
    requires ValidFaces(F, nv)
    ensures ValidFaces(FlipNormals(F), nv)
    ensures forall i :: 0 <= i < |F| && IsTriangle(F[i]) ==>
      FlipNormals(F)[i] == [F[i][0], F[i][2], F[i][1], F[i][0]]
    ensures forall i :: 0 <= i < |F| ==> (IsTriangle(FlipNormals(F)[i]) <==> IsTriangle(F[i]))
  {
  }
}
