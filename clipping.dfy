/**
 * Specification side of meshmagick.py `clip_by_plane`: vertex and face
 * classification, the ring of a clipped face once the intersection points
 * are inserted, the rewritten rows, the boundary edges and the final
 * renumbering.
 *
 * Vertex ids here are 0-based as in the source's working copies
 * (`F[...] - 1`); the ids of the intersection points continue after the nv
 * original vertices.
 */
module Clipping {
  import opened Geometry
  import opened Results
  import opened Planes
  import opened Mesh
  import opened Seqs

  /** Ways `clip_by_plane` fails. */
  datatype ClipError =
    | ShapeMismatch     // a clipped ring that does not fit a 4-slot row (ValueError)
    | IndexOutOfRange   // an index past the end of a ring (IndexError)
    | NoBoundaryEdge    // `boundary_edges.keys()[0]` of an empty dict (IndexError)
    | MissingEdge       // `boundary_edges.pop` of an absent vertex (KeyError)

  /** `np.dot(V, plane.normal) - plane.e`: the signed distance of every vertex. */
  function Distances(V: seq<Vec3>, normal: Vec3, e: real): (d: seq<real>)
    ensures |d| == |V|
    ensures forall i :: 0 <= i < |V| ==> d[i] == SignedDistance(normal, e, V[i])
  {
    seq(|V|, i requires 0 <= i < |V| => SignedDistance(normal, e, V[i]))
  }

  /** `positions <= abs_tol`: the vertices certainly kept. */
  function KeepMask(d: seq<real>, tol: real): (m: seq<bool>)
    ensures |m| == |d| && forall i :: 0 <= i < |d| ==> (m[i] <==> d[i] <= tol)
  {
    seq(|d|, i requires 0 <= i < |d| => d[i] <= tol)
  }

  /** `positions < -abs_tol`: the vertices strictly below the band. */
  function BelowMask(d: seq<real>, tol: real): (m: seq<bool>)
    ensures |m| == |d| && forall i :: 0 <= i < |d| ==> (m[i] <==> d[i] < -tol)
  {
    seq(|d|, i requires 0 <= i < |d| => d[i] < -tol)
  }

  /** `np.fabs(positions) <= abs_tol`: the vertices on the band around the plane. */
  function OnPlaneMask(d: seq<real>, tol: real): (m: seq<bool>)
    ensures |m| == |d| && forall i :: 0 <= i < |d| ==> (m[i] <==> Abs(d[i]) <= tol)
  {
    seq(|d|, i requires 0 <= i < |d| => Abs(d[i]) <= tol)
  }

  /** `F[i, :nb] - 1`: the distinct slots of a row as 0-based ids. */
  function Ring(f: seq<int>): (r: seq<int>)
    requires IsRow(f)
    ensures |r| == FaceSize(f)
    ensures forall k :: 0 <= k < |r| ==> r[k] == f[k] - 1
  {
    seq(FaceSize(f), k requires 0 <= k < FaceSize(f) => f[k] - 1)
  }

  predicate InRange(s: seq<int>, n: int)
  {
    forall k :: 0 <= k < |s| ==> 0 <= s[k] < n
  }

  /** `mask[ring]`: the mask read at each vertex of a ring. */
  function At(m: seq<bool>, ring: seq<int>): (r: seq<bool>)
    requires InRange(ring, |m|)
    ensures |r| == |ring| && forall k :: 0 <= k < |ring| ==> r[k] == m[ring[k]]
  {
    seq(|ring|, k requires 0 <= k < |ring| => m[ring[k]])
  }

  /** Every vertex of the face is kept: the face is kept as it is. */
  predicate FullyKept(kr: seq<bool>) { CountTrue(kr) == |kr| }

  /** Some vertex is not kept and some vertex is below the band: the face is clipped. */
  predicate ToClip(kr: seq<bool>, br: seq<bool>) { CountTrue(kr) < |kr| && CountTrue(br) > 0 }

  /** Two vertices on the band and all kept: the face has an edge on the plane. */
  predicate OnBoundary(kr: seq<bool>, onr: seq<bool>) { CountTrue(onr) == 2 && FullyKept(kr) }

  /** Python's `i - 1` on a ring: index -1 is the last slot. */
  function Prev(n: int, i: int): (p: int)
    requires 0 <= i < n
    ensures 0 <= p < n
  {
    if i == 0 then n - 1 else i - 1
  }

  /** Some vertices are kept and some are not: the mesh is really cut. */
  predicate Mixed(keep: seq<bool>) { 0 < CountTrue(keep) < |keep| }

  /** `mask[F[i, :nb] - 1]`: a vertex mask read on the distinct slots of a row. */
  function FaceMarks(m: seq<bool>, f: seq<int>): (r: seq<bool>)
    requires RowIn(f, |m|)
    ensures |r| == FaceSize(f) && forall k :: 0 <= k < |r| ==> r[k] == m[f[k] - 1]
  {
    At(m, Ring(f))
  }

  /** `clipped_mask` (lines 166-170): the face has a vertex not kept and one below the band. */
  predicate ToClipFace(f: seq<int>, d: seq<real>, tol: real)
    requires RowIn(f, |d|)
  {
    ToClip(FaceMarks(KeepMask(d, tol), f), FaceMarks(BelowMask(d, tol), f))
  }

  /**
   * With a non-negative tolerance a vertex below the band is kept, so a
   * face to clip has kept and dropped vertices.
   */
  lemma ToClipMixed(f: seq<int>, d: seq<real>, tol: real)
    requires RowIn(f, |d|) && tol >= 0.0 && ToClipFace(f, d, tol)
    ensures Mixed(FaceMarks(KeepMask(d, tol), f))
  {
    var kr, br := FaceMarks(KeepMask(d, tol), f), FaceMarks(BelowMask(d, tol), f);
    CountTrueZero(br);
    var k :| 0 <= k < |br| && br[k];
    CountTrueZero(kr);
    assert kr[k];
  }

  /** `clipped_mask`: the faces to clip. */
  function ClipMask(F: seq<seq<int>>, d: seq<real>, tol: real): (m: seq<bool>)
    requires ValidFaces(F, |d|)
    ensures |m| == |F|
    ensures forall i :: 0 <= i < |F| ==> (m[i] <==> ToClipFace(F[i], d, tol))
  {
    seq(|F|, i requires 0 <= i < |F| => ToClipFace(F[i], d, tol))
  }

  /** `keepF` (lines 123-125 and 171): the faces kept whole and the faces to clip. */
  function KeptFaces(F: seq<seq<int>>, d: seq<real>, tol: real): (m: seq<bool>)
    requires ValidFaces(F, |d|)
    ensures |m| == |F|
    ensures forall i :: 0 <= i < |F| ==>
      (m[i] <==> FullyKept(FaceMarks(KeepMask(d, tol), F[i])) || ToClipFace(F[i], d, tol))
  {
    seq(|F|, i requires 0 <= i < |F| => FullyKept(FaceMarks(KeepMask(d, tol), F[i])) || ToClipFace(F[i], d, tol))
  }

  /** `boundary_faces_mask` (lines 140-144): two vertices on the band and all kept. */
  predicate BoundaryFace(f: seq<int>, keep: seq<bool>, onPlane: seq<bool>)
    requires RowIn(f, |keep|) && |onPlane| == |keep|
  {
    OnBoundary(FaceMarks(keep, f), FaceMarks(onPlane, f))
  }

  /** Slot i and the slot before it differ in keep status: the edge into slot i crosses the plane. */
  predicate Crossing(kr: seq<bool>, i: int)
    requires 0 <= i < |kr|
  {
    kr[Prev(|kr|, i)] != kr[i]
  }

  function CrossMask(kr: seq<bool>): (c: seq<bool>)
    ensures |c| == |kr| && forall i :: 0 <= i < |kr| ==> (c[i] <==> Crossing(kr, i))
  {
    seq(|kr|, i requires 0 <= i < |kr| => Crossing(kr, i))
  }

  /**
   * Edge cache of `clip_by_plane` (its `edges` dict): crossing edge (a, b)
   * to the id of its intersection point, recorded for both directions.
   */
  type EdgeCache = map<(int, int), int>

  /** The edges into slots lo..hi-1 that cross the plane are all cached. */
  predicate Covers(ring: seq<int>, kr: seq<bool>, cache: EdgeCache, lo: int, hi: int)
    requires |ring| == |kr| && 0 <= lo <= hi <= |ring|
  {
    forall i :: lo <= i < hi && Crossing(kr, i) ==> (ring[Prev(|ring|, i)], ring[i]) in cache
  }

  /** What slot i becomes: the cached intersection point first when its edge crosses, then the vertex. */
  function Slot(ring: seq<int>, kr: seq<bool>, cache: EdgeCache, i: int): seq<int>
    requires |ring| == |kr| && 0 <= i < |ring|
    requires Crossing(kr, i) ==> (ring[Prev(|ring|, i)], ring[i]) in cache
  {
    (if Crossing(kr, i) then [cache[(ring[Prev(|ring|, i)], ring[i])]] else []) + [ring[i]]
  }

  /** Keep flags of Slot: the inserted point is kept. */
  function SlotPos(kr: seq<bool>, i: int): seq<bool>
    requires 0 <= i < |kr|
  {
    (if Crossing(kr, i) then [true] else []) + [kr[i]]
  }

  /** Slots lo..hi-1 of the ring with their intersection points inserted. */
  function Expand(ring: seq<int>, kr: seq<bool>, cache: EdgeCache, lo: int, hi: int): seq<int>
    requires |ring| == |kr| && 0 <= lo <= hi <= |ring|
    requires Covers(ring, kr, cache, lo, hi)
    decreases hi - lo
  {
    if lo == hi then [] else Slot(ring, kr, cache, lo) + Expand(ring, kr, cache, lo + 1, hi)
  }

  function ExpandPos(kr: seq<bool>, lo: int, hi: int): seq<bool>
    requires 0 <= lo <= hi <= |kr|
    decreases hi - lo
  {
    if lo == hi then [] else SlotPos(kr, lo) + ExpandPos(kr, lo + 1, hi)
  }

  /** Growing the cache does not change an expansion it already covers. */
  lemma {:induction false} ExpandGrow(ring: seq<int>, kr: seq<bool>, c: EdgeCache, c': EdgeCache, lo: int, hi: int)
    requires |ring| == |kr| && 0 <= lo <= hi <= |ring|
    requires Covers(ring, kr, c, lo, hi)
    requires forall k :: k in c ==> k in c' && c'[k] == c[k]
    ensures Covers(ring, kr, c', lo, hi)
    ensures Expand(ring, kr, c', lo, hi) == Expand(ring, kr, c, lo, hi)
    decreases hi - lo
  {
    if lo < hi {
      ExpandGrow(ring, kr, c, c', lo + 1, hi);
      assert Slot(ring, kr, c', lo) == Slot(ring, kr, c, lo);
    }
  }

  /** One entry per slot plus one per crossing edge. */
  lemma {:induction false} ExpandLength(ring: seq<int>, kr: seq<bool>, cache: EdgeCache, lo: int, hi: int)
    requires |ring| == |kr| && 0 <= lo <= hi <= |ring|
    requires Covers(ring, kr, cache, lo, hi)
    ensures |Expand(ring, kr, cache, lo, hi)| == |ExpandPos(kr, lo, hi)|
    ensures |ExpandPos(kr, lo, hi)| == (hi - lo) + CountTrue(CrossMask(kr)[lo..hi])
    decreases hi - lo
  {
    if lo < hi {
      ExpandLength(ring, kr, cache, lo + 1, hi);
      CountTrueFront(CrossMask(kr), lo, hi);
      var n := if Crossing(kr, lo) then 2 else 1;
      assert |Slot(ring, kr, cache, lo)| == n && |SlotPos(kr, lo)| == n;
      assert |Expand(ring, kr, cache, lo, hi)| == n + |Expand(ring, kr, cache, lo + 1, hi)|;
      assert |ExpandPos(kr, lo, hi)| == n + |ExpandPos(kr, lo + 1, hi)|;
    }
  }

  /** The kept entries of an expansion are the kept slots plus the crossings. */
  lemma {:induction false} ExpandKept(kr: seq<bool>, lo: int, hi: int)
    requires 0 <= lo <= hi <= |kr|
    ensures CountTrue(ExpandPos(kr, lo, hi)) == CountTrue(kr[lo..hi]) + CountTrue(CrossMask(kr)[lo..hi])
    decreases hi - lo
  {
    if lo < hi {
      ExpandKept(kr, lo + 1, hi);
      CountTrueFront(CrossMask(kr), lo, hi);
      CountTrueFront(kr, lo, hi);
      CountTrueAppend(SlotPos(kr, lo), ExpandPos(kr, lo + 1, hi));
      if Crossing(kr, lo) {
        assert SlotPos(kr, lo) == [true] + [kr[lo]];
        CountTrueAppend([true], [kr[lo]]);
        assert CountTrue([true]) == 1 by {
          assert [true][..0] == [];
        }
      } else {
        assert SlotPos(kr, lo) == [kr[lo]];
      }
    }
  }

  /** The last entry of a non-empty expansion is the last slot's vertex. */
  lemma {:induction false} ExpandLast(ring: seq<int>, kr: seq<bool>, cache: EdgeCache, lo: int, hi: int)
    requires |ring| == |kr| && 0 <= lo < hi <= |ring|
    requires Covers(ring, kr, cache, lo, hi)
    ensures |Expand(ring, kr, cache, lo, hi)| > 0 && |ExpandPos(kr, lo, hi)| > 0
    ensures Expand(ring, kr, cache, lo, hi)[|Expand(ring, kr, cache, lo, hi)| - 1] == ring[hi - 1]
    ensures ExpandPos(kr, lo, hi)[|ExpandPos(kr, lo, hi)| - 1] == kr[hi - 1]
    decreases hi - lo
  {
    if lo + 1 < hi {
      ExpandLast(ring, kr, cache, lo + 1, hi);
    }
  }

  /** Booleans a, b, c: the number of differences among the three pairs is even. */
  lemma {:induction false} CrossParityPrefix(kr: seq<bool>, h: int)
    requires 1 <= h <= |kr|
    ensures (CountTrue(CrossMask(kr)[..h]) + (if kr[h - 1] != kr[|kr| - 1] then 1 else 0)) % 2 == 0
  {
    var cm := CrossMask(kr);
    if h == 1 {
      assert cm[..1] == [cm[0]];
      assert CountTrue([cm[0]]) == (if cm[0] then 1 else 0) by {
        assert [cm[0]][..0] == [];
      }
    } else {
      CrossParityPrefix(kr, h - 1);
      var c0 := CountTrue(cm[..h - 1]);
      var e1 := if kr[h - 2] != kr[|kr| - 1] then 1 else 0;
      var e2 := if cm[h - 1] then 1 else 0;
      var e3 := if kr[h - 1] != kr[|kr| - 1] then 1 else 0;
      assert cm[..h][..h - 1] == cm[..h - 1];
      assert CountTrue(cm[..h]) == c0 + e2;
      assert cm[h - 1] == (kr[h - 2] != kr[h - 1]);
      assert e2 + e3 == e1 || e2 + e3 == e1 + 2;
    }
  }

  /** Around a closed ring the keep status changes an even number of times. */
  lemma CrossingsEven(kr: seq<bool>)
    requires |kr| >= 1
    ensures CountTrue(CrossMask(kr)) % 2 == 0
  {
    CrossParityPrefix(kr, |kr|);
    assert CrossMask(kr)[..|kr|] == CrossMask(kr);
  }

  /** A ring with no crossing has one keep status throughout. */
  lemma {:induction false} NoCrossingUniform(kr: seq<bool>, i: int)
    requires 0 <= i < |kr|
    requires forall j :: 0 <= j < |kr| ==> !Crossing(kr, j)
    ensures kr[i] == kr[0]
  {
    if i > 0 {
      NoCrossingUniform(kr, i - 1);
      assert !Crossing(kr, i);
    }
  }

  /** A ring with no crossing is kept entirely or dropped entirely. */
  lemma UniformCount(kr: seq<bool>)
    requires |kr| > 0
    requires CountTrue(CrossMask(kr)) == 0
    ensures CountTrue(kr) == 0 || CountTrue(kr) == |kr|
  {
    var cm := CrossMask(kr);
    CountTrueZero(cm);
    assert forall j :: 0 <= j < |kr| ==> !Crossing(kr, j) by {
      forall j | 0 <= j < |kr| ensures !Crossing(kr, j) {
        assert !cm[j];
      }
    }
    if kr[0] {
      forall i | 0 <= i < |kr| ensures kr[i] {
        NoCrossingUniform(kr, i);
      }
      CountTrueFull(kr);
    } else {
      forall i | 0 <= i < |kr| ensures !kr[i] {
        NoCrossingUniform(kr, i);
      }
      CountTrueZero(kr);
    }
  }

  /** A ring with kept and dropped slots crosses the plane at least twice. */
  lemma MixedCrossesTwice(kr: seq<bool>)
    requires 0 < CountTrue(kr) < |kr|
    ensures CountTrue(CrossMask(kr)) >= 2
  {
    CrossingsEven(kr);
    if CountTrue(CrossMask(kr)) == 0 {
      UniformCount(kr);
    }
    EvenAtLeastTwo(CountTrue(CrossMask(kr)));
  }

  lemma EvenAtLeastTwo(x: int)
    requires x % 2 == 0 && x > 0
    ensures x >= 2
  {
  }

  /** The first index from i on where the mask equals v, None when there is none. */
  function FirstIndexOf(m: seq<bool>, v: bool, i: int): (r: Option<int>)
    requires 0 <= i <= |m|
    ensures r.Some? ==> i <= r.value < |m| && m[r.value] == v && forall j :: i <= j < r.value ==> m[j] != v
    ensures r.None? ==> forall j :: i <= j < |m| ==> m[j] != v
    decreases |m| - i
  {
    if i == |m| then None
    else if m[i] == v then Some(i)
    else FirstIndexOf(m, v, i + 1)
  }

  /** `np.roll(s, -n)`: rotation left by n. */
  function RollLeft(s: seq<int>, n: int): (w: seq<int>)
    requires 0 <= n <= |s|
    ensures |w| == |s|
    ensures forall j :: 0 <= j < |s| ==> w[j] == if n + j < |s| then s[n + j] else s[n + j - |s|]
  {
    s[n..] + s[..n]
  }

  /** What a clipped face's row becomes, and the extra quadrangle of a pentagon. */
  datatype Rows = Rows(row: seq<int>, extra: Option<seq<int>>)

  /** Every id of the rows is one of c. */
  predicate RowsWithin(rows: Rows, c: seq<int>)
  {
    (forall x :: x in rows.row ==> x in c) &&
    (rows.extra.Some? ==> forall x :: x in rows.extra.value ==> x in c)
  }

  /**
   * The rows for the ring `face_w` with keep flags `pos`: its kept entries
   * padded to a triangle row when there are three, as they are when four,
   * repeated when one (numpy broadcasting), and for five the ring rotated
   * to start at its dropped entry and split into the triangle [2, 3, 4, 2]
   * and the quadrangle [1, 2, 4, 5]. Any other count does not fit a row.
   */
  function ClipRow(faceW: seq<int>, pos: seq<bool>): (r: Result<Rows, ClipError>)
    requires |faceW| == |pos|
    ensures r.Ok? ==> |r.value.row| == 4 && (r.value.extra.Some? ==> |r.value.extra.value| == 4)
    ensures r.Ok? <==> CountTrue(pos) in {1, 3, 4} ||
                       (CountTrue(pos) == 5 && FirstIndexOf(pos, false, 0).Some? && |faceW| >= 6)
    ensures r.Ok? ==> (r.value.extra.Some? <==> CountTrue(pos) == 5)
    ensures r.Ok? && CountTrue(pos) != 5 ==> RowsWithin(r.value, Filter(faceW, pos))
    ensures r.Ok? && CountTrue(pos) == 3 ==> r.value.row == Filter(faceW, pos) + [Filter(faceW, pos)[0]]
    ensures r.Ok? && CountTrue(pos) == 4 ==> r.value.row == Filter(faceW, pos)
  {
    var c := Filter(faceW, pos);
    if |c| == 3 then Ok(Rows(c + [c[0]], None))
    else if |c| == 5 then
      match FirstIndexOf(pos, false, 0)
      case None => Err(IndexOutOfRange)
      case Some(n) =>
        var w := RollLeft(faceW, n);
        if |w| < 6 then Err(IndexOutOfRange)
        else Ok(Rows([w[2], w[3], w[4], w[2]], Some([w[1], w[2], w[4], w[5]])))
    else if |c| == 4 then Ok(Rows(c, None))
    else if |c| == 1 then Ok(Rows([c[0], c[0], c[0], c[0]], None))
    else Err(ShapeMismatch)
  }

  /** A mask with one false entry is true everywhere else. */
  lemma OnlyFalse(pos: seq<bool>, n: int)
    requires 0 <= n < |pos| && !pos[n] && CountTrue(pos) == |pos| - 1
    ensures forall i :: 0 <= i < |pos| && i != n ==> pos[i]
  {
    forall i | 0 <= i < |pos| && i != n
      ensures pos[i]
    {
      if !pos[i] {
        if i < n { CountTrueTwoFalse(pos, i, n); } else { CountTrueTwoFalse(pos, n, i); }
      }
    }
  }

  /** The rotated ring of a pentagon: entries 1 to 5 are exactly the kept entries. */
  lemma PentagonRotation(faceW: seq<int>, pos: seq<bool>, n: int)
    requires |faceW| == |pos| == 6 && CountTrue(pos) == 5
    requires 0 <= n < 6 && !pos[n]
    ensures forall j :: 1 <= j < 6 ==> RollLeft(faceW, n)[j] in Filter(faceW, pos)
    ensures forall x :: x in Filter(faceW, pos) ==> exists j :: 1 <= j < 6 && RollLeft(faceW, n)[j] == x
  {
    var c := Filter(faceW, pos);
    var w := RollLeft(faceW, n);
    OnlyFalse(pos, n);
    forall j | 1 <= j < 6
      ensures w[j] in c
    {
      var i := if n + j < 6 then n + j else n + j - 6;
      assert w[j] == faceW[i];
      FilterAt(faceW, pos, i);
    }
    forall x | x in c
      ensures exists j :: 1 <= j < 6 && w[j] == x
    {
      var k :| 0 <= k < |c| && c[k] == x;
      FilterFrom(faceW, pos, k);
      var i :| 0 <= i < 6 && pos[i] && x == faceW[i];
      var j := if i >= n then i - n else i - n + 6;
      assert w[j] == faceW[i];
    }
  }

  /**
   * A pentagon from a six-entry ring with one dropped entry: both rows use
   * only kept entries, and together they use all five.
   */
  lemma PentagonSplit(faceW: seq<int>, pos: seq<bool>)
    requires |faceW| == |pos| == 6 && CountTrue(pos) == 5
    ensures ClipRow(faceW, pos).Ok?
    ensures var rows := ClipRow(faceW, pos).value;
      RowsWithin(rows, Filter(faceW, pos)) &&
      forall x :: x in Filter(faceW, pos) ==> x in rows.row || x in rows.extra.value
  {
    CountTrueFull(pos);
    var n := FirstIndexOf(pos, false, 0).value;
    var w := RollLeft(faceW, n);
    PentagonRotation(faceW, pos, n);
    var rows := ClipRow(faceW, pos).value;
    assert rows == Rows([w[2], w[3], w[4], w[2]], Some([w[1], w[2], w[4], w[5]]));
    forall x | x in Filter(faceW, pos)
      ensures x in rows.row || x in rows.extra.value
    {
      var j :| 1 <= j < 6 && w[j] == x;
      assert j == 3 ==> x == rows.row[1];
    }
  }

  /** A quadrangle whose kept vertices are two opposite corners. */
  predicate Opposite(kr: seq<bool>)
  {
    |kr| == 4 && kr[0] == kr[2] && kr[1] == kr[3] && kr[0] != kr[1]
  }

  lemma SmallEven(x: int, n: int)
    requires x % 2 == 0 && 2 <= x <= n <= 4
    ensures x == 2 || (x == 4 && n == 4)
  {
  }

  lemma CountTruePair(a: bool, b: bool)
    ensures CountTrue([a, b]) == (if a then 1 else 0) + (if b then 1 else 0)
  {
    assert [a, b][..1] == [a] && [a][..0] == [];
  }

  /** A quadrangle crosses the plane on all four edges exactly when its kept corners are opposite. */
  lemma FourCrossingsOpposite(kr: seq<bool>)
    requires |kr| == 4
    ensures CountTrue(CrossMask(kr)) == 4 <==> Opposite(kr)
    ensures Opposite(kr) ==> CountTrue(kr) == 2
  {
    var cm := CrossMask(kr);
    CountTrueFull(cm);
    assert cm[1] == (kr[0] != kr[1]) && cm[2] == (kr[1] != kr[2]) && cm[3] == (kr[2] != kr[3]);
    assert cm[0] == (kr[3] != kr[0]);
    if Opposite(kr) {
      assert kr == [kr[0], kr[1]] + [kr[2], kr[3]];
      CountTrueAppend([kr[0], kr[1]], [kr[2], kr[3]]);
      CountTruePair(kr[0], kr[1]);
      CountTruePair(kr[2], kr[3]);
    }
  }

  /**
   * A face with kept and dropped vertices, once its crossing edges are
   * expanded: its rows are well formed unless it is a quadrangle with
   * opposite kept corners (six entries then remain), and they use only
   * kept entries of the expanded ring.
   */
  lemma ClippedRingRows(ring: seq<int>, kr: seq<bool>, cache: EdgeCache)
    requires |ring| == |kr| && (|ring| == 3 || |ring| == 4)
    requires 0 < CountTrue(kr) < |kr|
    requires Covers(ring, kr, cache, 0, |ring|)
    ensures var faceW, pos := Expand(ring, kr, cache, 0, |ring|), ExpandPos(kr, 0, |ring|);
      |faceW| == |pos| &&
      (ClipRow(faceW, pos).Ok? <==> !Opposite(kr)) &&
      (ClipRow(faceW, pos).Err? ==> ClipRow(faceW, pos).error == ShapeMismatch) &&
      (ClipRow(faceW, pos).Ok? ==> RowsWithin(ClipRow(faceW, pos).value, Filter(faceW, pos)))
  {
    var n := |ring|;
    var faceW, pos := Expand(ring, kr, cache, 0, n), ExpandPos(kr, 0, n);
    ExpandLength(ring, kr, cache, 0, n);
    ExpandKept(kr, 0, n);
    var cm := CrossMask(kr);
    assert kr[0..n] == kr && cm[0..n] == cm;
    var x := CountTrue(cm);
    MixedCrossesTwice(kr);
    CrossingsEven(kr);
    SmallEven(x, n);
    if n == 4 {
      FourCrossingsOpposite(kr);
    }
    if CountTrue(pos) == 5 {
      PentagonSplit(faceW, pos);
    }
  }

  /**
   * The boundary edge a face contributes (lines 157-163 for faces with an
   * edge on the plane, 247-253 for clipped faces): at the first marked
   * entry i of the ring s, the edge s[i] -> s[i-1] when the entry before it
   * is marked too, otherwise s[i+1] -> s[i]; nothing when no entry is
   * marked; an IndexError when i is the last entry in the second case.
   */
  function BoundaryEdge(s: seq<int>, m: seq<bool>): (r: Result<Option<(int, int)>, ClipError>)
    requires |s| == |m|
    ensures r == Ok(None) <==> forall j :: 0 <= j < |m| ==> !m[j]
    ensures r.Err? <==> exists i :: FirstIndexOf(m, true, 0) == Some(i) && !m[Prev(|m|, i)] && i == |s| - 1
    ensures r.Ok? && r.value.Some? ==>
      var i := FirstIndexOf(m, true, 0).value;
      (m[Prev(|m|, i)] ==> r.value.value == (s[i], s[Prev(|s|, i)])) &&
      (!m[Prev(|m|, i)] ==> i + 1 < |s| && r.value.value == (s[i + 1], s[i]))
  {
    match FirstIndexOf(m, true, 0)
    case None => Ok(None)
    case Some(i) =>
      if m[Prev(|m|, i)] then Ok(Some((s[i], s[Prev(|s|, i)])))
      else if i + 1 < |s| then Ok(Some((s[i + 1], s[i])))
      else Err(IndexOutOfRange)
  }

  /**
   * The entry a boundary face writes into the boundary dictionary (lines
   * 151-163): key and value are vertices of the face.
   */
  function FaceEdge(f: seq<int>, keep: seq<bool>, onPlane: seq<bool>): (edge: (int, int))
    requires RowIn(f, |keep|) && |onPlane| == |keep| && BoundaryFace(f, keep, onPlane)
    ensures edge.0 + 1 in f && edge.1 + 1 in f
  {
    BoundaryEdgeFound(Ring(f), FaceMarks(onPlane, f));
    var edge := BoundaryEdge(Ring(f), FaceMarks(onPlane, f)).value.value;
    assert forall k :: 0 <= k < FaceSize(f) ==> Ring(f)[k] + 1 == f[k];
    edge
  }

  /** `ivertex >= nv` over a clipped ring: the entries that are intersection points. */
  function NewMarks(c: seq<int>, nv: int): (m: seq<bool>)
    ensures |m| == |c| && forall k :: 0 <= k < |c| ==> (m[k] <==> c[k] >= nv)
  {
    seq(|c|, k requires 0 <= k < |c| => c[k] >= nv)
  }

  /**
   * In a clipped ring, the edge closes the polygon between the two
   * intersection points when they are consecutive: both ends are new.
   */
  lemma BoundaryEdgeOfAdjacentPoints(c: seq<int>, nv: int, i: int)
    requires 0 <= i < |c| && c[i] >= nv && c[Prev(|c|, i)] >= nv
    requires forall j :: 0 <= j < i ==> c[j] < nv
    ensures BoundaryEdge(c, NewMarks(c, nv)) == Ok(Some((c[i], c[Prev(|c|, i)])))
  {
  }

  /** With two or more marked entries the boundary edge is always found. */
  lemma BoundaryEdgeFound(s: seq<int>, m: seq<bool>)
    requires |s| == |m| && CountTrue(m) >= 2
    ensures BoundaryEdge(s, m).Ok? && BoundaryEdge(s, m).value.Some?
  {
    CountTrueZero(m);
    var i := FirstIndexOf(m, true, 0).value;
    if i == |m| - 1 {
      assert m == m[..i] + [m[i]];
      CountTrueAppend(m[..i], [m[i]]);
      CountTrueZero(m[..i]);
    }
  }

  lemma NewMarksAppend(a: seq<int>, b: seq<int>, nv: int)
    ensures NewMarks(a + b, nv) == NewMarks(a, nv) + NewMarks(b, nv)
  {
  }

  /** A slot contributes one new point to the clipped ring when its edge crosses, none otherwise. */
  lemma SlotNewMarks(ring: seq<int>, kr: seq<bool>, cache: EdgeCache, i: int, nv: int)
    requires |ring| == |kr| && 0 <= i < |ring| && ring[i] < nv
    requires Crossing(kr, i) ==> (ring[Prev(|ring|, i)], ring[i]) in cache && cache[(ring[Prev(|ring|, i)], ring[i])] >= nv
    ensures |Slot(ring, kr, cache, i)| == |SlotPos(kr, i)|
    ensures CountTrue(NewMarks(Filter(Slot(ring, kr, cache, i), SlotPos(kr, i)), nv)) == if Crossing(kr, i) then 1 else 0
  {
    var r := ring[i];
    var tail := Filter([r], [kr[i]]);
    assert tail == if kr[i] then [r] else [] by {
      assert [r][..0] == [] && [kr[i]][..0] == [];
    }
    assert CountTrue(NewMarks(tail, nv)) == 0 by {
      CountTrueZero(NewMarks(tail, nv));
    }
    if Crossing(kr, i) {
      var q := cache[(ring[Prev(|ring|, i)], ring[i])];
      assert Slot(ring, kr, cache, i) == [q] + [r];
      assert SlotPos(kr, i) == [true] + [kr[i]];
      FilterAppend([q], [true], [r], [kr[i]]);
      assert Filter([q], [true]) == [q] by {
        assert [q][..0] == [] && [true][..0] == [];
      }
      NewMarksAppend([q], tail, nv);
      CountTrueAppend(NewMarks([q], nv), NewMarks(tail, nv));
      assert CountTrue(NewMarks([q], nv)) == 1 by {
        assert NewMarks([q], nv) == [true];
        assert [true][..0] == [];
      }
    } else {
      assert Slot(ring, kr, cache, i) == [r] && SlotPos(kr, i) == [kr[i]];
    }
  }

  /** The clipped ring holds exactly one new point per crossing edge. */
  lemma {:induction false} ExpandNewMarks(ring: seq<int>, kr: seq<bool>, cache: EdgeCache, lo: int, hi: int, nv: int)
    requires |ring| == |kr| && 0 <= lo <= hi <= |ring|
    requires Covers(ring, kr, cache, lo, hi)
    requires InRange(ring, nv) && forall k :: k in cache ==> cache[k] >= nv
    ensures |Expand(ring, kr, cache, lo, hi)| == |ExpandPos(kr, lo, hi)|
    ensures CountTrue(NewMarks(Filter(Expand(ring, kr, cache, lo, hi), ExpandPos(kr, lo, hi)), nv))
            == CountTrue(CrossMask(kr)[lo..hi])
    decreases hi - lo
  {
    ExpandLength(ring, kr, cache, lo, hi);
    if lo < hi {
      ExpandNewMarks(ring, kr, cache, lo + 1, hi, nv);
      SlotNewMarks(ring, kr, cache, lo, nv);
      ExpandLength(ring, kr, cache, lo + 1, hi);
      MarksConcat(Slot(ring, kr, cache, lo), SlotPos(kr, lo),
                  Expand(ring, kr, cache, lo + 1, hi), ExpandPos(kr, lo + 1, hi), nv);
      CountTrueCons(CrossMask(kr), lo, hi);
    }
  }

  lemma MarksConcat(S: seq<int>, P: seq<bool>, E: seq<int>, Q: seq<bool>, nv: int)
    requires |S| == |P| && |E| == |Q|
    ensures CountTrue(NewMarks(Filter(S + E, P + Q), nv))
            == CountTrue(NewMarks(Filter(S, P), nv)) + CountTrue(NewMarks(Filter(E, Q), nv))
  {
    FilterAppend(S, P, E, Q);
    NewMarksAppend(Filter(S, P), Filter(E, Q), nv);
    CountTrueAppend(NewMarks(Filter(S, P), nv), NewMarks(Filter(E, Q), nv));
  }

  lemma CountTrueCons(b: seq<bool>, lo: int, hi: int)
    requires 0 <= lo < hi <= |b|
    ensures CountTrue(b[lo..hi]) == (if b[lo] then 1 else 0) + CountTrue(b[lo + 1..hi])
  {
    assert b[lo..hi] == [b[lo]] + b[lo + 1..hi];
    CountTrueAppend([b[lo]], b[lo + 1..hi]);
    assert CountTrue([b[lo]]) == (if b[lo] then 1 else 0) by {
      assert [b[lo]][..0] == [];
    }
  }

  /** Id x (0-based, extended numbering) names a kept vertex: a kept original or an intersection point. */
  predicate KeptId(x: int, keep: seq<bool>, nNew: int)
  {
    (0 <= x < |keep| && keep[x]) || (|keep| <= x < |keep| + nNew)
  }

  /** Every slot of a 1-based row names a kept vertex. */
  predicate KeptRow(row: seq<int>, keep: seq<bool>, nNew: int)
  {
    |row| == 4 && forall k :: 0 <= k < 4 ==> KeptId(row[k] - 1, keep, nNew)
  }

  /** Keeping a row's ids kept as more new points are added. */
  lemma KeptRowGrow(row: seq<int>, keep: seq<bool>, nNew: int, nNew': int)
    requires KeptRow(row, keep, nNew) && nNew <= nNew'
    ensures KeptRow(row, keep, nNew')
  {
  }

  /** A row all of whose distinct slots are kept names only kept vertices. */
  lemma FullyKeptRow(f: seq<int>, keep: seq<bool>, nNew: int)
    requires IsRow(f) && forall k :: 0 <= k < 4 ==> 1 <= f[k] <= |keep|
    requires FullyKept(At(keep, Ring(f)))
    ensures KeptRow(f, keep, nNew)
  {
    var kr := At(keep, Ring(f));
    CountTrueFull(kr);
    forall k | 0 <= k < 4
      ensures KeptId(f[k] - 1, keep, nNew)
    {
      if k < FaceSize(f) {
        assert kr[k];
      } else {
        assert kr[0] && f[k] == f[0];
      }
    }
  }

  /** A ring with no kept slot has no crossing. */
  lemma NoneKeptNoCrossing(kr: seq<bool>)
    requires CountTrue(kr) == 0
    ensures CountTrue(CrossMask(kr)) == 0
  {
    CountTrueZero(kr);
    CountTrueZero(CrossMask(kr));
  }

  /**
   * The rows of any face to clip (some slot dropped) use only kept entries
   * of its expanded ring, whenever they can be formed.
   */
  lemma ClipRowWithin(ring: seq<int>, kr: seq<bool>, cache: EdgeCache)
    requires |ring| == |kr| && (|ring| == 3 || |ring| == 4) && CountTrue(kr) < |ring|
    requires Covers(ring, kr, cache, 0, |ring|)
    ensures var faceW, pos := Expand(ring, kr, cache, 0, |ring|), ExpandPos(kr, 0, |ring|);
      |faceW| == |pos| &&
      (ClipRow(faceW, pos).Ok? ==> RowsWithin(ClipRow(faceW, pos).value, Filter(faceW, pos)))
  {
    var n := |ring|;
    ExpandLength(ring, kr, cache, 0, n);
    if CountTrue(kr) == 0 {
      NoneKeptNoCrossing(kr);
      ExpandKept(kr, 0, n);
      assert kr[0..n] == kr && CrossMask(kr)[0..n] == CrossMask(kr);
    } else {
      ClippedRingRows(ring, kr, cache);
    }
  }

  /** The kept entries of a walked ring are kept vertices or new points. */
  lemma FilteredKept(faceW: seq<int>, pos: seq<bool>, keep: seq<bool>, nNew: int)
    requires |faceW| == |pos|
    requires forall j :: 0 <= j < |pos| && pos[j] ==> KeptId(faceW[j], keep, nNew)
    ensures forall x :: x in Filter(faceW, pos) ==> KeptId(x, keep, nNew)
  {
    var c := Filter(faceW, pos);
    forall x | x in c
      ensures KeptId(x, keep, nNew)
    {
      var k :| 0 <= k < |c| && c[k] == x;
      FilterFrom(faceW, pos, k);
    }
  }

  /** The boundary edge of a ring of kept entries starts at a kept entry. */
  lemma EdgeKept(s: seq<int>, m: seq<bool>, keep: seq<bool>, nNew: int)
    requires |s| == |m| && forall x :: x in s ==> KeptId(x, keep, nNew)
    requires BoundaryEdge(s, m).Ok? && BoundaryEdge(s, m).value.Some?
    ensures KeptId(BoundaryEdge(s, m).value.value.0, keep, nNew)
  {
    var i := FirstIndexOf(m, true, 0).value;
    if !m[Prev(|m|, i)] {
      assert s[i + 1] in s;
    } else {
      assert s[i] in s;
    }
  }

  /** Rows built from kept entries only name kept vertices, once made 1-based. */
  lemma RowsKept(rows: Rows, faceW: seq<int>, pos: seq<bool>, keep: seq<bool>, nNew: int)
    requires |faceW| == |pos| && RowsWithin(rows, Filter(faceW, pos))
    requires forall j :: 0 <= j < |pos| && pos[j] ==> KeptId(faceW[j], keep, nNew)
    requires |rows.row| == 4 && (rows.extra.Some? ==> |rows.extra.value| == 4)
    ensures KeptRow(OneBased(rows.row), keep, nNew)
    ensures rows.extra.Some? ==> KeptRow(OneBased(rows.extra.value), keep, nNew)
  {
    FilteredKept(faceW, pos, keep, nNew);
    assert forall k :: 0 <= k < 4 ==> rows.row[k] in rows.row;
    if rows.extra.Some? {
      assert forall k :: 0 <= k < 4 ==> rows.extra.value[k] in rows.extra.value;
    }
  }

  /** `+ 1` on each id: back to 1-based ids. */
  function OneBased(r: seq<int>): (s: seq<int>)
    ensures |s| == |r| && forall k :: 0 <= k < |r| ==> s[k] == r[k] + 1
  {
    seq(|r|, k requires 0 <= k < |r| => r[k] + 1)
  }

  /** `np.ones(n, dtype=bool)` */
  function Trues(n: nat): (t: seq<bool>)
    ensures |t| == n && forall k :: 0 <= k < n ==> t[k]
  {
    seq(n, k => true)
  }

  /**
   * `newID_V`: a kept vertex gets its rank among the kept vertices, a
   * dropped one keeps its index.
   */
  function NewIds(keep: seq<bool>): (ids: seq<int>)
    ensures |ids| == |keep|
    ensures forall i :: 0 <= i < |keep| && keep[i] ==> ids[i] == CountTrue(keep[..i])
    ensures forall i :: 0 <= i < |keep| && !keep[i] ==> ids[i] == i
  {
    seq(|keep|, i requires 0 <= i < |keep| => if keep[i] then CountTrue(keep[..i]) else i)
  }

  /** `newID_V[row - 1] + 1` on one row. */
  function RenumberRow(row: seq<int>, ids: seq<int>): (r: seq<int>)
    requires forall k :: 0 <= k < |row| ==> 1 <= row[k] <= |ids|
    ensures |r| == |row| && forall k :: 0 <= k < |row| ==> r[k] == ids[row[k] - 1] + 1
  {
    seq(|row|, k requires 0 <= k < |row| => ids[row[k] - 1] + 1)
  }

  /**
   * Renumbering a row of kept vertices: its ids fall in 1..(number kept)
   * and each names, in the selected vertices, the point it named before.
   */
  lemma RenumberKeptRow<T>(row: seq<int>, keep: seq<bool>, Vs: seq<T>)
    requires |Vs| == |keep|
    requires forall k :: 0 <= k < |row| ==> 1 <= row[k] <= |keep| && keep[row[k] - 1]
    ensures |RenumberRow(row, NewIds(keep))| == |row|
    ensures forall k :: 0 <= k < |row| ==>
      1 <= RenumberRow(row, NewIds(keep))[k] <= CountTrue(keep) &&
      Filter(Vs, keep)[RenumberRow(row, NewIds(keep))[k] - 1] == Vs[row[k] - 1]
  {
    forall k | 0 <= k < |row|
      ensures 1 <= RenumberRow(row, NewIds(keep))[k] <= CountTrue(keep) &&
        Filter(Vs, keep)[RenumberRow(row, NewIds(keep))[k] - 1] == Vs[row[k] - 1]
    {
      RenumberKeptId(keep, Vs, row[k] - 1, RenumberRow(row, NewIds(keep))[k]);
    }
  }

  /** The new id of a kept vertex, made 1-based, names it among the selected vertices. */
  lemma RenumberKeptId<T>(keep: seq<bool>, Vs: seq<T>, x: int, y: int)
    requires |Vs| == |keep| && 0 <= x < |keep| && keep[x] && y == NewIds(keep)[x] + 1
    ensures 1 <= y <= CountTrue(keep) && Filter(Vs, keep)[y - 1] == Vs[x]
  {
    FilterAt(Vs, keep, x);
  }

  /** Every entry of every row is a 1-based id below n + 1. */
  predicate RowsIn(rows: seq<seq<int>>, n: int)
  {
    forall i :: 0 <= i < |rows| ==> forall k :: 0 <= k < |rows[i]| ==> 1 <= rows[i][k] <= n
  }

  /** `newID_V[(F[keepF] - 1)] + 1`: the kept rows renumbered. */
  function RenumberRows(rows: seq<seq<int>>, ids: seq<int>): (r: seq<seq<int>>)
    requires RowsIn(rows, |ids|)
    ensures |r| == |rows| && forall i :: 0 <= i < |rows| ==> r[i] == RenumberRow(rows[i], ids)
  {
    seq(|rows|, i requires 0 <= i < |rows| => RenumberRow(rows[i], ids))
  }
}
