/**
 * symmetrize (meshmagick.py lines 1769-1778): the mesh is joined with its
 * mirror image in a plane n.x = e, the mirrored faces are flipped so that
 * they keep facing outwards, and the duplicate vertices along the plane
 * are merged with the default tolerance of merge_duplicates.
 */
module Symmetry {
  import opened Geometry
  import opened Results
  import opened Mesh
  import opened Planes
  import opened Transforms
  import opened Clipping
  import opened Merging

  /** The default `tol=1e-8` of merge_duplicates, which symmetrize does not override. */
  const MergeTol: real := 0.00000001

  // ---------------------------------------------------------------------
  // The mirror image of one vertex

  /**
   * Lines 1774-1775 as written: with n_s = n / (n.n), a vertex v goes to
   * v - 2 (v.n_s - e) n_s. The offset e is not divided by n.n.
   */
  function MirrorAsWritten(n: Vec3, e: real, v: Vec3): Vec3
    requires Dot(n, n) != 0.0
  {
    var ns := Scale(1.0 / Dot(n, n), n);
    Sub(v, Scale(2.0 * (Dot(v, ns) - e), ns))
  }

  /**
   * With the normal n = (0, 0, 2) and e = 2, the vertex (0, 0, 1) lies on
   * the plane, yet the formula as written moves it to (0, 0, 2.5), which is
   * not even the mirror image of anything on the mesh's side.
   */
  lemma MirrorAsWrittenMovesPlanePoint()
    ensures MirrorAsWritten(Vec3(0.0, 0.0, 2.0), 2.0, Vec3(0.0, 0.0, 1.0)) == Vec3(0.0, 0.0, 2.5)
    ensures SignedDistance(Vec3(0.0, 0.0, 2.0), 2.0, Vec3(0.0, 0.0, 1.0)) == 0.0
  {
    var n, v := Vec3(0.0, 0.0, 2.0), Vec3(0.0, 0.0, 1.0);
    assert Dot(n, n) == 4.0;
    assert SignedDistance(n, 2.0, v) == 0.0;
    assert Scale(1.0 / Dot(n, n), n) == Vec3(0.0, 0.0, 0.5) by {
      assert 1.0 / 4.0 == 0.25;
    }
    MirrorAsWrittenBy(n, 2.0, v, Vec3(0.0, 0.0, 0.5));
  }

  /** The formula as written, with the scaled normal n_s given. */
  lemma MirrorAsWrittenBy(n: Vec3, e: real, v: Vec3, ns: Vec3)
    requires Dot(n, n) != 0.0 && ns == Scale(1.0 / Dot(n, n), n)
    ensures MirrorAsWritten(n, e, v) == Sub(v, Scale(2.0 * (Dot(v, ns) - e), ns))
  {
  }

  /** Reflection of v in the plane n.x = e, for any non-zero normal. */
  function Mirror(n: Vec3, e: real, v: Vec3): Vec3
    requires Dot(n, n) != 0.0
  {
    Sub(v, Scale(2.0 * (Dot(n, v) - e) / Dot(n, n), n))
  }

  /** For a unit normal the formula as written is the reflection. */
  lemma MirrorAsWrittenUnit(n: Vec3, e: real, v: Vec3)
    requires Dot(n, n) == 1.0
    ensures MirrorAsWritten(n, e, v) == Mirror(n, e, v)
  {
    assert Scale(1.0 / Dot(n, n), n) == n;
    assert Dot(v, n) == Dot(n, v);
  }

  /** The signed distance of the reflection to the plane is minus that of the vertex. */
  lemma MirrorDistance(n: Vec3, e: real, v: Vec3)
    requires Dot(n, n) != 0.0
    ensures SignedDistance(n, e, Mirror(n, e, v)) == -SignedDistance(n, e, v)
  {
    var k := 2.0 * (Dot(n, v) - e) / Dot(n, n);
    assert k * Dot(n, n) == 2.0 * (Dot(n, v) - e);
    calc {
      Dot(n, Mirror(n, e, v));
      Dot(n, Sub(v, Scale(k, n)));
      Dot(n, v) - k * Dot(n, n);
      Dot(n, v) - 2.0 * (Dot(n, v) - e);
    }
  }

  /** Mirroring twice gives back the vertex. */
  lemma MirrorInvolution(n: Vec3, e: real, v: Vec3)
    requires Dot(n, n) != 0.0
    ensures Mirror(n, e, Mirror(n, e, v)) == v
  {
    var m := Mirror(n, e, v);
    MirrorDistance(n, e, v);
    var k := 2.0 * (Dot(n, v) - e) / Dot(n, n);
    var k' := 2.0 * (Dot(n, m) - e) / Dot(n, n);
    assert Dot(n, m) - e == -(Dot(n, v) - e);
    assert k' == -k;
    assert Mirror(n, e, m) == Sub(m, Scale(k', n));
  }

  /** A vertex on the plane is its own reflection; one off the plane is not. */
  lemma MirrorFixed(n: Vec3, e: real, v: Vec3)
    requires Dot(n, n) != 0.0
    ensures Mirror(n, e, v) == v <==> SignedDistance(n, e, v) == 0.0
  {
    MirrorDistance(n, e, v);
    if SignedDistance(n, e, v) == 0.0 {
      assert 2.0 * (Dot(n, v) - e) / Dot(n, n) == 0.0;
      assert Scale(0.0, n) == Vec3(0.0, 0.0, 0.0);
    }
  }

  /** `V - 2 outer(V.n_s - e, n_s)`, with the reflection corrected: every vertex mirrored. */
  function Mirrored(n: Vec3, e: real, V: seq<Vec3>): (r: seq<Vec3>)
    requires Dot(n, n) != 0.0
    ensures |r| == |V| && forall i :: 0 <= i < |V| ==> r[i] == Mirror(n, e, V[i])
  {
    seq(|V|, i requires 0 <= i < |V| => Mirror(n, e, V[i]))
  }

  /** Mirroring the mirrored vertices gives back the vertices. */
  lemma MirroredInvolution(n: Vec3, e: real, V: seq<Vec3>)
    requires Dot(n, n) != 0.0
    ensures Mirrored(n, e, Mirrored(n, e, V)) == V
  {
    forall i | 0 <= i < |V|
      ensures Mirrored(n, e, Mirrored(n, e, V))[i] == V[i]
    {
      MirrorInvolution(n, e, V[i]);
    }
  }

  // ---------------------------------------------------------------------
  // The mirrored faces

  /** `F.copy() + nv` on one row: the same face over the mirrored vertices. */
  function Shift(row: seq<int>, nv: int): (r: seq<int>)
    ensures |r| == |row| && forall k :: 0 <= k < |row| ==> r[k] == row[k] + nv
  {
    seq(|row|, k requires 0 <= k < |row| => row[k] + nv)
  }

  /** `np.fliplr(F.copy() + nv)`: the faces over the mirrored vertices, each turned round. */
  function MirroredFaces(F: seq<seq<int>>, nv: int): (r: seq<seq<int>>)
    ensures |r| == |F|
  {
    FlipNormals(seq(|F|, j requires 0 <= j < |F| => Shift(F[j], nv)))
  }

  /**
   * The mirrored faces name the mirrored vertices nv+1..2nv, in the
   * reverse order of the faces they come from.
   */
  lemma MirroredFacesRows(F: seq<seq<int>>, nv: int)
    requires ValidFaces(F, nv)
    ensures forall j, k :: 0 <= j < |F| && 0 <= k < 4 ==> MirroredFaces(F, nv)[j][k] == F[j][3 - k] + nv
    ensures forall j :: 0 <= j < |F| ==> RowIn(MirroredFaces(F, nv)[j], 2 * nv)
  {
    var S := seq(|F|, j requires 0 <= j < |F| => Shift(F[j], nv));
    assert ValidFaces(S, 2 * nv);
    FlipNormalsRows(S, 2 * nv);
  }

  /** Both halves over the 2 nv vertices: the faces and their mirror images. */
  lemma JoinedFaces(F: seq<seq<int>>, nv: int)
    requires ValidFaces(F, nv)
    ensures ValidFaces(F, 2 * nv) && ValidFaces(MirroredFaces(F, nv), 2 * nv)
  {
    MirroredFacesRows(F, nv);
  }

  /** Two valid face lists joined are valid. */
  lemma JoinedValid(F: seq<seq<int>>, G: seq<seq<int>>, nv: int)
    requires ValidFaces(F, nv) && ValidFaces(G, nv)
    ensures ValidFaces(F + G, nv)
  {
    forall j | 0 <= j < |F + G|
      ensures RowIn((F + G)[j], nv)
    {
      if j >= |F| {
        assert (F + G)[j] == G[j - |F|];
      }
    }
  }

  // ---------------------------------------------------------------------
  // The operation

  /** What symmetrize returns: the merged vertices and the renumbered faces. */
  datatype Symmetric = Symmetric(V: seq<Vec3>, F: seq<seq<int>>)

  /**
   * symmetrize(V, F, plane) with the reflection corrected: the vertices and
   * their mirror images, the faces and their flipped mirror images, merged
   * with tol 1e-8. Each vertex and each mirror image is within 2e-8 in every
   * coordinate of the merged vertex standing for it, and each face row is
   * renumbered accordingly. A vertex on the plane is its own mirror image,
   * so the two halves share it: the seam is welded. A mesh without vertices fails in
   * merge_duplicates.
   */
  method Symmetrize(V: seq<Vec3>, F: seq<seq<int>>, normal: Vec3, e: real) returns (r: Result<Symmetric, MergeError>, ghost ids: seq<int>)
    requires Dot(normal, normal) != 0.0 && ValidFaces(F, |V|)
    ensures r.Err? <==> |V| == 0
    ensures r.Ok? ==> |ids| == 2 * |V| && IdsIn(ids, |r.value.V|) && |r.value.V| <= 2 * |V|
    ensures r.Ok? ==> ValidFaces(r.value.F, |r.value.V|) && |r.value.F| == 2 * |F|
    ensures r.Ok? ==> forall i :: 0 <= i < |V| ==>
      Close(V[i], r.value.V[ids[i]], MergeTol) && Close(Mirrored(normal, e, V)[i], r.value.V[ids[|V| + i]], MergeTol)
    ensures r.Ok? ==> forall g :: 0 <= g < |r.value.V| ==> StandsFor(V + Mirrored(normal, e, V), ids, g, r.value.V[g])
    ensures r.Ok? ==> forall i :: 0 <= i < |V| && SignedDistance(normal, e, V[i]) == 0.0 ==> ids[i] == ids[|V| + i]
    ensures r.Ok? ==> MergedAs(V + Mirrored(normal, e, V), MergeTol, r.value.V, ids)
    ensures r.Ok? ==> forall i, j :: 0 <= i < 2 * |V| && 0 <= j < 2 * |V| ==>
      (ids[i] == ids[j] <==> SameCell(V + Mirrored(normal, e, V), MergeTol, i, j))
    ensures r.Ok? ==> forall j :: 0 <= j < |F| ==>
      r.value.F[j] == RenumberRow(F[j], ids) && r.value.F[|F| + j] == RenumberRow(MirroredFaces(F, |V|)[j], ids)
  {
    var M := Mirrored(normal, e, V);
    JoinedFaces(F, |V|);
    r, ids := Weld(V, M, F, MirroredFaces(F, |V|), MergeTol);
    if r.Ok? {
      MergedFacts(V + M, MergeTol, r.value.V, ids);
      forall i | 0 <= i < |V| && SignedDistance(normal, e, V[i]) == 0.0
        ensures ids[i] == ids[|V| + i]
      {
        MirrorFixed(normal, e, V[i]);
      }
    }
  }

  /**
   * Lines 1775-1778: the vertices V and their images M joined, the faces F
   * and the image faces G joined, and the whole merged by merge_duplicates
   * with tol 1e-8. Each half is read back: a vertex is close to the vertex
   * standing for it, a vertex equal to its image shares its id, and the
   * face rows are renumbered in order.
   */
  method Weld(V: seq<Vec3>, M: seq<Vec3>, F: seq<seq<int>>, G: seq<seq<int>>, tol: real) returns (r: Result<Symmetric, MergeError>, ghost ids: seq<int>)
    requires 0.0 <= tol && |M| == |V| && |G| == |F| && ValidFaces(F, 2 * |V|) && ValidFaces(G, 2 * |V|)
    ensures r.Err? <==> |V| == 0
    ensures r.Ok? ==> |ids| == 2 * |V| && IdsIn(ids, |r.value.V|) && |r.value.V| <= 2 * |V|
    ensures r.Ok? ==> ValidFaces(r.value.F, |r.value.V|) && |r.value.F| == 2 * |F|
    ensures r.Ok? ==> forall i :: 0 <= i < |V| ==> Close(V[i], r.value.V[ids[i]], tol) && Close(M[i], r.value.V[ids[|V| + i]], tol)
    ensures r.Ok? ==> forall g :: 0 <= g < |r.value.V| ==> StandsFor(V + M, ids, g, r.value.V[g])
    ensures r.Ok? ==> forall i :: 0 <= i < |V| && V[i] == M[i] ==> ids[i] == ids[|V| + i]
    ensures r.Ok? ==> MergedAs(V + M, tol, r.value.V, ids)
    ensures r.Ok? ==> forall j :: 0 <= j < |F| ==> r.value.F[j] == RenumberRow(F[j], ids) && r.value.F[|F| + j] == RenumberRow(G[j], ids)
  {
    var nv := |V|;
    var V2 := V + M;
    var F2 := F + G;
    JoinedValid(F, G, 2 * nv);
    var merged, rows;
    merged, rows, ids := MergeRows(V2, F2, tol);
    if merged.Err? {
      return Err(merged.error), ids;
    }
    r := Ok(Symmetric(merged.value, rows));
    JoinedClose(V, M, merged.value, ids, tol);
    JoinedEqual(V, M, ids);
    JoinedRows(F, G, rows, ids);
  }

  /** merge_duplicates on the face rows F2 held in an array, read back as rows. */
  method MergeRows(V2: seq<Vec3>, F2: seq<seq<int>>, tol: real) returns (r: Result<seq<Vec3>, MergeError>, rows: seq<seq<int>>, ghost ids: seq<int>)
    requires 0.0 <= tol && ValidFaces(F2, |V2|)
    ensures r.Err? <==> |V2| == 0
    ensures r.Ok? ==> |ids| == |V2| && 0 < |r.value| <= |V2| && IdsIn(ids, |r.value|)
    ensures r.Ok? ==> forall i :: 0 <= i < |V2| ==> Close(V2[i], r.value[ids[i]], tol)
    ensures r.Ok? ==> forall g :: 0 <= g < |r.value| ==> StandsFor(V2, ids, g, r.value[g])
    ensures r.Ok? ==> forall i, j :: 0 <= i < |V2| && 0 <= j < |V2| && V2[i] == V2[j] ==> ids[i] == ids[j]
    ensures r.Ok? ==> ValidFaces(rows, |r.value|) && |rows| == |F2|
    ensures r.Ok? ==> forall j :: 0 <= j < |F2| ==> RowIn(F2[j], |ids|) && rows[j] == RenumberRow(F2[j], ids)
    ensures r.Ok? ==> MergedAs(V2, tol, r.value, ids)
  {
    var Fa := new seq<int>[|F2|](j requires 0 <= j < |F2| => F2[j]);
    assert Fa[..] == F2;
    r, ids := MergeDuplicates(V2, Fa, tol);
    rows := Fa[..];
  }

  /** A vertex equal to its image shares its id, when equal vertices of both halves do. */
  lemma JoinedEqual(V: seq<Vec3>, M: seq<Vec3>, ids: seq<int>)
    requires |M| == |V| && |ids| == 2 * |V|
    requires forall i, j :: 0 <= i < |V + M| && 0 <= j < |V + M| && (V + M)[i] == (V + M)[j] ==> ids[i] == ids[j]
    ensures forall i :: 0 <= i < |V| && V[i] == M[i] ==> ids[i] == ids[|V| + i]
  {
    forall i | 0 <= i < |V| && V[i] == M[i]
      ensures ids[i] == ids[|V| + i]
    {
      assert (V + M)[i] == V[i] && (V + M)[|V| + i] == M[i];
    }
  }

  /** Closeness over the joined vertices, read back on each half. */
  lemma JoinedClose(V: seq<Vec3>, M: seq<Vec3>, W: seq<Vec3>, ids: seq<int>, tol: real)
    requires |M| == |V| && |ids| == 2 * |V| && IdsIn(ids, |W|)
    requires forall i :: 0 <= i < |V + M| ==> Close((V + M)[i], W[ids[i]], tol)
    ensures forall i :: 0 <= i < |V| ==> Close(V[i], W[ids[i]], tol) && Close(M[i], W[ids[|V| + i]], tol)
  {
    forall i | 0 <= i < |V|
      ensures Close(V[i], W[ids[i]], tol) && Close(M[i], W[ids[|V| + i]], tol)
    {
      assert (V + M)[i] == V[i] && (V + M)[|V| + i] == M[i];
    }
  }

  /** Renumbering over the joined faces, read back on each half. */
  lemma JoinedRows(F: seq<seq<int>>, G: seq<seq<int>>, H: seq<seq<int>>, ids: seq<int>)
    requires |G| == |F| && |H| == 2 * |F| && ValidFaces(F + G, |ids|)
    requires forall j :: 0 <= j < |H| ==> H[j] == RenumberRow((F + G)[j], ids)
    ensures forall j :: 0 <= j < |F| ==>
      RowIn(F[j], |ids|) && RowIn(G[j], |ids|) && H[j] == RenumberRow(F[j], ids) && H[|F| + j] == RenumberRow(G[j], ids)
  {
    forall j | 0 <= j < |F|
      ensures RowIn(F[j], |ids|) && RowIn(G[j], |ids|) &&
        H[j] == RenumberRow(F[j], ids) && H[|F| + j] == RenumberRow(G[j], ids)
    {
      assert (F + G)[j] == F[j] && (F + G)[|F| + j] == G[j];
    }
  }
}
