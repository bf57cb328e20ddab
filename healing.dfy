/**
 * The flood of heal_normals (meshmagick.py lines 405-484): vertex-face and
 * vertex-vertex connectivity, face-face adjacency through shared edges, and
 * a depth-first flood from face 0 that reverses every newly reached face
 * whose shared edge runs the same way as in the face it was reached from.
 */
module Healing {
  import opened Results
  import opened Mesh
  import opened Transforms
  import opened Geometry

  // ---------------------------------------------------------------------
  // The orientation test of lines 470-481

  /** `face[:type_cell[iface]]`, also `face_w`: the slots a face really uses. */
  function Slots(f: seq<int>): (s: seq<int>)
    requires IsRow(f)
    ensures |s| == FaceSize(f) && s == f[..|s|]
    ensures forall v :: v in f <==> v in s
  {
    if IsTriangle(f) then
      assert forall v :: v in f ==> v in f[..3] by {
        assert f == f[..3] + [f[0]];
      }
      f[..3]
    else f
  }

  /** `np.where(s == v)[0][0]`: the first slot holding v. */
  function FirstIndex(s: seq<int>, v: int): (k: nat)
    requires v in s
    ensures k < |s| && s[k] == v && v !in s[..k]
  {
    if s[0] == v then 0 else 1 + FirstIndex(s[1..], v)
  }

  /** `np.roll(s, -k)`: s read from slot k on, wrapping round. */
  function Roll(s: seq<int>, k: int): (r: seq<int>)
    requires 0 <= k < |s|
    ensures |r| == |s|
    ensures forall m :: 0 <= m < |s| ==> r[m] == if k + m < |s| then s[k + m] else s[k + m - |s|]
  {
    s[k..] + s[..k]
  }

  /** `face_ref`: the used slots of f rotated to start at the first slot holding a. */
  function Rolled(f: seq<int>, a: int): (r: seq<int>)
    requires IsRow(f) && a in f
    ensures |r| == FaceSize(f) && r[0] == a
  {
    var k := FirstIndex(f, a);
    assert k < FaceSize(f) by {
      assert IsTriangle(f) ==> f[..3][0] == f[3];
    }
    Roll(Slots(f), k)
  }

  /**
   * Lines 470-478: true when adj runs the edge a-b the same way as face
   * (b right after a in both, or b right before a in adj when it is not
   * right after a in face), which is when adj gets reversed.
   */
  predicate SameWay(face: seq<int>, adj: seq<int>, a: int, b: int)
    requires IsRow(face) && IsRow(adj) && a in face && a in adj
  {
    var fr, ar := Rolled(face, a), Rolled(adj, a);
    if fr[1] == b then ar[1] == b else ar[|ar| - 1] == b
  }

  /** The used slots of a row name distinct vertices. */
  predicate DistinctSlots(f: seq<int>)
    requires IsRow(f)
  {
    forall i, j :: 0 <= i < j < FaceSize(f) ==> f[i] != f[j]
  }

  /** A reversed row holds the same vertices. */
  lemma ReverseMembers(f: seq<int>)
    ensures forall v :: v in Reverse(f) <==> v in f
  {
    forall v | v in f
      ensures v in Reverse(f)
    {
      var j :| 0 <= j < |f| && f[j] == v;
      assert Reverse(f)[|f| - 1 - j] == v;
    }
  }

  /**
   * Reversing a row with distinct slots swaps the neighbours of a: the one
   * after a becomes the one before it, and the other way round.
   */
  lemma RolledReverse(f: seq<int>, a: int)
    requires IsRow(f) && a in f && DistinctSlots(f)
    ensures a in Reverse(f) && FaceSize(Reverse(f)) == FaceSize(f)
    ensures var r, r' := Rolled(f, a), Rolled(Reverse(f), a);
      r'[1] == r[|r| - 1] && r'[|r| - 1] == r[1]
  {
    var n := FaceSize(f);
    var g := Reverse(f);
    ReverseMembers(f);
    var j := FirstIndex(f, a);
    var s, s' := Slots(f), Slots(g);
    assert j < n;
    if n == 4 {
      assert FirstIndex(g, a) == 3 - j by {
        assert g[3 - j] == a;
      }
    } else {
      var jj := if j == 0 then 0 else 3 - j;
      assert FirstIndex(g, a) == jj by {
        assert g[jj] == a;
      }
    }
  }

  /**
   * Reversing a face the test finds running the shared edge the same way
   * makes the test fail: after the flip of line 481 the two faces run
   * their shared edge a-b in opposite directions.
   */
  lemma ReverseFixesOrientation(face: seq<int>, adj: seq<int>, a: int, b: int)
    requires IsRow(face) && IsRow(adj) && a in face && a in adj && a != b && DistinctSlots(adj)
    requires SameWay(face, adj, a, b)
    ensures IsRow(Reverse(adj)) && a in Reverse(adj) && !SameWay(face, Reverse(adj), a, b)
  {
    RolledReverse(adj, a);
    NeighboursDiffer(adj, a);
  }

  /** In a row with distinct slots, the vertex after a and the one before it differ. */
  lemma NeighboursDiffer(f: seq<int>, a: int)
    requires IsRow(f) && a in f && DistinctSlots(f)
    ensures Rolled(f, a)[1] != Rolled(f, a)[FaceSize(f) - 1]
  {
    var j := FirstIndex(f, a);
    var s := Slots(f);
    var n := |s|;
    assert j < n;
    var r := Roll(s, j);
    assert r[1] == s[if j + 1 < n then j + 1 else j + 1 - n];
    assert r[n - 1] == s[if j + n - 1 < n then j + n - 1 else j - 1];
  }

  // ---------------------------------------------------------------------
  // Vertex connectivity of lines 416-427

  /** `index - 1` read the Python way: slot -1 is the last slot. */
  function Before(k: int, n: int): (p: int)
    requires 0 <= k < n
    ensures 0 <= p < n && (p + 1 == k || (k == 0 && p == n - 1))
  {
    if k == 0 then n - 1 else k - 1
  }

  /** Used slot k of f and the used slot before it hold v and u, in either order. */
  predicate EdgeAt(f: seq<int>, k: int, v: int, u: int)
    requires IsRow(f) && 0 <= k < FaceSize(f)
  {
    var s := Slots(f);
    var w := s[Before(k, |s|)];
    (s[k] == v && w == u) || (s[k] == u && w == v)
  }

  /** One of the first m used slots of f makes the edge v-u with the slot before it. */
  predicate EdgeIn(f: seq<int>, m: int, v: int, u: int)
    requires IsRow(f) && m <= FaceSize(f)
  {
    exists k :: 0 <= k < m && EdgeAt(f, k, v, u)
  }

  /** Some face among the first i runs an edge between v and u. */
  ghost predicate Linked(F: seq<seq<int>>, i: int, v: int, u: int)
    requires 0 <= i <= |F| && forall x :: 0 <= x < |F| ==> IsRow(F[x])
  {
    exists x :: 0 <= x < i && EdgeIn(F[x], FaceSize(F[x]), v, u)
  }

  /** The keys of VV and VF: one per vertex id. */
  ghost predicate KeyedByIds(M: map<int, set<int>>, nv: int) {
    forall v :: v in M <==> 1 <= v <= nv
  }

  /** The faces among the first i that use vertex v. */
  function FacesUsing(F: seq<seq<int>>, v: int, i: int): (r: set<int>)
    requires 0 <= i <= |F|
    ensures forall x :: x in r <==> 0 <= x < i && v in F[x]
  {
    set x | 0 <= x < i && v in F[x]
  }

  /** `dict([(i, set()) for i in xrange(nv)])`. */
  function EmptySets(nv: int): (M: map<int, set<int>>)
    ensures KeyedByIds(M, nv) && forall v :: v in M ==> M[v] == {}
  {
    if nv <= 0 then map[] else EmptySets(nv - 1)[nv := {}]
  }

  /**
   * VF and VV once faces 0..i-1 and the first m used slots of face i are
   * done: VF[v] holds the faces using v, VV[v] the vertices sharing an edge
   * with v.
   */
  ghost predicate SetsUpTo(F: seq<seq<int>>, nv: int, VF: map<int, set<int>>, VV: map<int, set<int>>, i: int, m: int)
    requires ValidFaces(F, nv) && 0 <= i <= |F| && 0 <= m && (i < |F| ==> m <= FaceSize(F[i]))
  {
    KeyedByIds(VF, nv) && KeyedByIds(VV, nv) &&
    (forall v :: v in VF ==>
      VF[v] == FacesUsing(F, v, i) + if i < |F| && v in Slots(F[i])[..m] then {i} else {}) &&
    (forall v, u :: v in VV ==>
      (u in VV[v] <==> Linked(F, i, v, u) || (i < |F| && EdgeIn(F[i], m, v, u))))
  }

  /** VF and VV as lines 416-427 leave them. */
  ghost predicate VertexSets(F: seq<seq<int>>, nv: int, VF: map<int, set<int>>, VV: map<int, set<int>>)
    requires ValidFaces(F, nv)
  {
    KeyedByIds(VF, nv) && KeyedByIds(VV, nv) &&
    (forall v :: v in VF ==> VF[v] == FacesUsing(F, v, |F|)) &&
    (forall v, u :: v in VV ==> (u in VV[v] <==> Linked(F, |F|, v, u)))
  }

  lemma EdgeInStep(f: seq<int>, m: int, v: int, u: int)
    requires IsRow(f) && 0 <= m < FaceSize(f)
    ensures EdgeIn(f, m + 1, v, u) <==> EdgeIn(f, m, v, u) || EdgeAt(f, m, v, u)
  {
    if EdgeIn(f, m + 1, v, u) {
      var k :| 0 <= k < m + 1 && EdgeAt(f, k, v, u);
      assert k < m || k == m;
    }
  }

  lemma LinkedStep(F: seq<seq<int>>, nv: int, i: int, v: int, u: int)
    requires ValidFaces(F, nv) && 0 <= i < |F|
    ensures Linked(F, i + 1, v, u) <==> Linked(F, i, v, u) || EdgeIn(F[i], FaceSize(F[i]), v, u)
  {
    if Linked(F, i + 1, v, u) {
      var x :| 0 <= x < i + 1 && EdgeIn(F[x], FaceSize(F[x]), v, u);
      assert x < i || x == i;
    }
  }

  /** Lines 420-427 for used slot m of face i. */
  lemma SlotStep(F: seq<seq<int>>, nv: int, VF: map<int, set<int>>, VV: map<int, set<int>>, i: int, m: int)
    requires ValidFaces(F, nv) && 0 <= i < |F| && 0 <= m < FaceSize(F[i])
    requires SetsUpTo(F, nv, VF, VV, i, m)
    ensures var s := Slots(F[i]);
      var w, p := s[m], s[Before(m, |s|)];
      w in VF && p in VV && w in VV[p := VV[p] + {w}] &&
      var VV' := VV[p := VV[p] + {w}];
      SetsUpTo(F, nv, VF[w := VF[w] + {i}], VV'[w := VV'[w] + {p}], i, m + 1)
  {
    var s := Slots(F[i]);
    var w, p := s[m], s[Before(m, |s|)];
    assert RowIn(F[i], nv);
    assert w in F[i] && p in F[i];
    var VF2 := VF[w := VF[w] + {i}];
    var VV' := VV[p := VV[p] + {w}];
    var VV2 := VV'[w := VV'[w] + {p}];
    assert 1 <= w <= nv by {
      assert w == F[i][m];
    }
    assert 1 <= p <= nv by {
      assert p == F[i][Before(m, |s|)];
    }
    forall v | v in VF2
      ensures VF2[v] == FacesUsing(F, v, i) + if v in s[..m + 1] then {i} else {}
    {
      assert s[..m + 1] == s[..m] + [w];
    }
    forall v, u | v in VV2
      ensures u in VV2[v] <==> Linked(F, i, v, u) || EdgeIn(F[i], m + 1, v, u)
    {
      EdgeInStep(F[i], m, v, u);
    }
  }

  /** Moving on from the last used slot of face i to face i + 1. */
  lemma FaceStep(F: seq<seq<int>>, nv: int, VF: map<int, set<int>>, VV: map<int, set<int>>, i: int)
    requires ValidFaces(F, nv) && 0 <= i < |F|
    requires SetsUpTo(F, nv, VF, VV, i, FaceSize(F[i]))
    ensures SetsUpTo(F, nv, VF, VV, i + 1, 0)
  {
    forall v | v in VF
      ensures VF[v] == FacesUsing(F, v, i + 1) + if i + 1 < |F| && v in Slots(F[i + 1])[..0] then {i} else {}
    {
      assert Slots(F[i])[..FaceSize(F[i])] == Slots(F[i]);
      assert v in Slots(F[i]) <==> v in F[i];
    }
    forall v, u | v in VV
      ensures u in VV[v] <==> Linked(F, i + 1, v, u) || (i + 1 < |F| && EdgeIn(F[i + 1], 0, v, u))
    {
      LinkedStep(F, nv, i, v, u);
    }
  }

  /**
   * Lines 416-427: VF[v] is the set of faces using v, VV[v] the set of
   * vertices joined to v by an edge of some face.
   */
  method BuildVertexSets(F: seq<seq<int>>, nv: int) returns (VF: map<int, set<int>>, VV: map<int, set<int>>)
    requires ValidFaces(F, nv)
    ensures VertexSets(F, nv, VF, VV)
  {
    VF := EmptySets(nv);
    VV := EmptySets(nv);
    for i := 0 to |F|
      invariant SetsUpTo(F, nv, VF, VV, i, 0)
    {
      var s := Slots(F[i]);
      for m := 0 to |s|
        invariant SetsUpTo(F, nv, VF, VV, i, m)
      {
        var w, p := s[m], s[Before(m, |s|)];
        SlotStep(F, nv, VF, VV, i, m);
        VF := VF[w := VF[w] + {i}];
        VV := VV[p := VV[p] + {w}];
        VV := VV[w := VV[w] + {p}];
      }
      FaceStep(F, nv, VF, VV, i);
    }
  }

  // ---------------------------------------------------------------------
  // Face adjacency of lines 429-440

  /** `S1 & S2` of lines 432-435: the faces using both v and u. */
  function FacesWith(F: seq<seq<int>>, v: int, u: int): (r: set<int>)
    ensures forall x :: x in r <==> 0 <= x < |F| && v in F[x] && u in F[x]
  {
    FacesUsing(F, v, |F|) * FacesUsing(F, u, |F|)
  }

  /** Lines 437-438: FF with b added to the links of a and a to those of b. */
  function LinkBoth(FF: seq<set<int>>, a: int, b: int): (r: seq<set<int>>)
    requires 0 <= a < |FF| && 0 <= b < |FF|
    ensures |r| == |FF|
    ensures forall x :: 0 <= x < |FF| ==>
      r[x] == FF[x] + (if x == a then {b} else {}) + (if x == b then {a} else {})
  {
    var FF' := FF[a := FF[a] + {b}];
    FF'[b := FF'[b] + {a}]
  }

  /** Faces a and b both use the two ends of one edge of the mesh. */
  ghost predicate ShareEdge(F: seq<seq<int>>, nv: int, a: int, b: int)
    requires ValidFaces(F, nv)
  {
    exists v, u :: Linked(F, |F|, v, u) && a in FacesWith(F, v, u) && b in FacesWith(F, v, u)
  }

  /** FF links faces of F both ways, never a face to itself, and only across a shared edge. */
  ghost predicate Adjacency(F: seq<seq<int>>, nv: int, FF: seq<set<int>>)
    requires ValidFaces(F, nv)
  {
    |FF| == |F| && EdgeLinks(F, nv, FF) && Symmetric(FF)
  }

  /** Every link of FF joins two different faces of F sharing an edge. */
  ghost predicate EdgeLinks(F: seq<seq<int>>, nv: int, FF: seq<set<int>>)
    requires ValidFaces(F, nv) && |FF| == |F|
  {
    forall a, b :: 0 <= a < |F| && b in FF[a] ==> 0 <= b < |F| && b != a && ShareEdge(F, nv, a, b)
  }

  /** b is linked to a exactly when a is linked to b. */
  ghost predicate Symmetric(FF: seq<set<int>>) {
    forall a, b :: 0 <= a < |FF| && 0 <= b < |FF| ==> (b in FF[a] <==> a in FF[b])
  }

  /** No edge of the mesh belongs to exactly one face. */
  ghost predicate Closed(F: seq<seq<int>>, nv: int)
    requires ValidFaces(F, nv)
  {
    forall v, u :: Linked(F, |F|, v, u) ==> |FacesWith(F, v, u)| != 1
  }

  /** The pair (w, u) of line 433 has been handled once the loops have reached v with todo left. */
  ghost predicate Done(VV: map<int, set<int>>, v: int, todo: set<int>, w: int, u: int) {
    w in VV && u in VV[w] && (w < v || (w == v && u !in todo))
  }

  /** a and b are the two faces using both v and u. */
  predicate EdgePair(F: seq<seq<int>>, v: int, u: int, a: int, b: int) {
    |FacesWith(F, v, u)| == 2 && a in FacesWith(F, v, u) && b in FacesWith(F, v, u) && a != b
  }

  /** Handling the pair (v, u) adds it to the handled pairs and nothing else. */
  lemma DoneStep(VV: map<int, set<int>>, v: int, todo: set<int>, u: int)
    requires v in VV && u in todo && todo <= VV[v]
    ensures forall w, u' :: Done(VV, v, todo - {u}, w, u') <==> Done(VV, v, todo, w, u') || (w == v && u' == u)
  {
  }

  /** The vertices of VV[v] still to visit when the loop of line 431 reaches v. */
  function Pending(VV: map<int, set<int>>, v: int): set<int> {
    if v in VV then VV[v] else {}
  }

  /** Moving on from vertex v, all of whose pairs are handled, to v + 1. */
  lemma NextVertex(F: seq<seq<int>>, nv: int, VV: map<int, set<int>>, FF: seq<set<int>>, closed: bool, v: int)
    requires ValidFaces(F, nv) && AdjUpTo(F, nv, VV, FF, closed, v, {})
    ensures AdjUpTo(F, nv, VV, FF, closed, v + 1, Pending(VV, v + 1))
  {
    assert forall w, u :: Done(VV, v + 1, Pending(VV, v + 1), w, u) <==> Done(VV, v, {}, w, u);
  }

  /** What lines 431-440 have built once they reach vertex v with todo left of VV[v]. */
  ghost predicate AdjUpTo(F: seq<seq<int>>, nv: int, VV: map<int, set<int>>, FF: seq<set<int>>, closed: bool, v: int, todo: set<int>)
    requires ValidFaces(F, nv)
  {
    Adjacency(F, nv, FF) && Complete(F, VV, FF, v, todo) && ClosedSoFar(F, VV, closed, v, todo)
  }

  /** Every handled pair whose edge has exactly two faces has linked them. */
  ghost predicate Complete(F: seq<seq<int>>, VV: map<int, set<int>>, FF: seq<set<int>>, v: int, todo: set<int>) {
    |FF| == |F| &&
    forall w, u, a, b :: Done(VV, v, todo, w, u) && EdgePair(F, w, u, a, b) ==> b in FF[a]
  }

  /** The flag of line 440 is still set exactly when no handled pair has a single face. */
  ghost predicate ClosedSoFar(F: seq<seq<int>>, VV: map<int, set<int>>, closed: bool, v: int, todo: set<int>) {
    closed <==> forall w, u :: Done(VV, v, todo, w, u) ==> |FacesWith(F, w, u)| != 1
  }

  /** Both ends of an edge are vertex ids, and some face uses both. */
  lemma LinkedFaces(F: seq<seq<int>>, nv: int, v: int, u: int)
    requires ValidFaces(F, nv) && Linked(F, |F|, v, u)
    ensures 1 <= v <= nv && 1 <= u <= nv && FacesWith(F, v, u) != {}
  {
    var x :| 0 <= x < |F| && EdgeIn(F[x], FaceSize(F[x]), v, u);
    var k :| 0 <= k < FaceSize(F[x]) && EdgeAt(F[x], k, v, u);
    var s := Slots(F[x]);
    var p := Before(k, |s|);
    assert RowIn(F[x], nv) && s[k] == F[x][k] && s[p] == F[x][p];
    assert x in FacesWith(F, v, u);
  }

  /** Two distinct members of a two-element set are all of it. */
  lemma PairIsAll(I: set<int>, a: int, b: int)
    requires |I| == 2 && a in I && b in I && a != b
    ensures I == {a, b}
  {
    var J := I - {a, b};
    assert I == J + {a, b};
    assert |J| == 0;
  }

  /** The pair (v, u) closes the mesh as lines 436-438 link two of the faces I using both. */
  lemma LinkStep(F: seq<seq<int>>, nv: int, VV: map<int, set<int>>, FF: seq<set<int>>, closed: bool,
                 v: int, todo: set<int>, u: int, a: int, b: int)
    requires ValidFaces(F, nv) && AdjUpTo(F, nv, VV, FF, closed, v, todo)
    requires v in VV && u in todo && todo <= VV[v] && Linked(F, |F|, v, u)
    requires |FacesWith(F, v, u)| != 1 && a in FacesWith(F, v, u) && b in FacesWith(F, v, u) && a != b
    ensures AdjUpTo(F, nv, VV, LinkBoth(FF, a, b), closed, v, todo - {u})
  {
    LinkAdjacency(F, nv, FF, v, u, a, b);
    CompleteLink(F, VV, FF, v, todo, u, a, b);
    DoneStep(VV, v, todo, u);
  }

  /** Linking the two faces of the edge v-u completes the pair (v, u). */
  lemma CompleteLink(F: seq<seq<int>>, VV: map<int, set<int>>, FF: seq<set<int>>, v: int, todo: set<int>, u: int, a: int, b: int)
    requires Complete(F, VV, FF, v, todo) && v in VV && u in todo && todo <= VV[v]
    requires a in FacesWith(F, v, u) && b in FacesWith(F, v, u) && a != b
    ensures Complete(F, VV, LinkBoth(FF, a, b), v, todo - {u})
  {
    var I := FacesWith(F, v, u);
    var FF2 := LinkBoth(FF, a, b);
    DoneStep(VV, v, todo, u);
    forall w, u', a', b' | Done(VV, v, todo - {u}, w, u') && EdgePair(F, w, u', a', b')
      ensures b' in FF2[a']
    {
      if w == v && u' == u {
        PairIsAll(I, a, b);
        assert a' in {a, b} && b' in {a, b};
      } else {
        assert b' in FF[a'];
      }
    }
  }

  /** Linking two faces using both ends of an edge keeps FF an adjacency. */
  lemma LinkAdjacency(F: seq<seq<int>>, nv: int, FF: seq<set<int>>, v: int, u: int, a: int, b: int)
    requires ValidFaces(F, nv) && Adjacency(F, nv, FF) && Linked(F, |F|, v, u)
    requires a in FacesWith(F, v, u) && b in FacesWith(F, v, u) && a != b
    ensures Adjacency(F, nv, LinkBoth(FF, a, b))
  {
    assert ShareEdge(F, nv, a, b) && ShareEdge(F, nv, b, a);
    LinkEdge(F, nv, FF, a, b);
    LinkSymmetric(FF, a, b);
  }

  /** Linking two faces using both ends of an edge keeps every link across a shared edge. */
  lemma LinkEdge(F: seq<seq<int>>, nv: int, FF: seq<set<int>>, a: int, b: int)
    requires ValidFaces(F, nv) && |FF| == |F| && EdgeLinks(F, nv, FF)
    requires 0 <= a < |F| && 0 <= b < |F| && a != b && ShareEdge(F, nv, a, b) && ShareEdge(F, nv, b, a)
    ensures EdgeLinks(F, nv, LinkBoth(FF, a, b))
  {
    var FF2 := LinkBoth(FF, a, b);
    forall x, y | 0 <= x < |F| && y in FF2[x]
      ensures 0 <= y < |F| && y != x && ShareEdge(F, nv, x, y)
    {
      if !((x == a && y == b) || (x == b && y == a)) {
        assert y in FF[x];
      }
    }
  }

  /** Linking a to b and b to a keeps the links symmetric. */
  lemma LinkSymmetric(FF: seq<set<int>>, a: int, b: int)
    requires Symmetric(FF) && 0 <= a < |FF| && 0 <= b < |FF|
    ensures Symmetric(LinkBoth(FF, a, b))
  {
    var FF2 := LinkBoth(FF, a, b);
    forall x, y | 0 <= x < |FF| && 0 <= y < |FF|
      ensures y in FF2[x] <==> x in FF2[y]
    {
      assert y in FF[x] <==> x in FF[y];
    }
  }

  /** The pair (v, u) is a boundary edge: line 440 records the mesh as open. */
  lemma OpenStep(F: seq<seq<int>>, nv: int, VV: map<int, set<int>>, FF: seq<set<int>>, closed: bool,
                 v: int, todo: set<int>, u: int)
    requires ValidFaces(F, nv) && AdjUpTo(F, nv, VV, FF, closed, v, todo)
    requires v in VV && u in todo && todo <= VV[v] && |FacesWith(F, v, u)| == 1
    ensures AdjUpTo(F, nv, VV, FF, false, v, todo - {u})
  {
    DoneStep(VV, v, todo, u);
    assert Done(VV, v, todo - {u}, v, u);
    forall w, u', a, b | Done(VV, v, todo - {u}, w, u') && EdgePair(F, w, u', a, b)
      ensures b in FF[a]
    {
      assert Done(VV, v, todo, w, u');
    }
  }

  /** The faces of lines 432-435 for a pair (v, u) are those using both ends of the edge v-u. */
  lemma PairFaces(F: seq<seq<int>>, nv: nat, VF: map<int, set<int>>, VV: map<int, set<int>>, v: int, u: int)
    requires ValidFaces(F, nv) && VertexSets(F, nv, VF, VV) && v in VV && u in VV[v]
    ensures Linked(F, |F|, v, u) && v in VF && u in VF && VF[v] * VF[u] == FacesWith(F, v, u)
  {
    LinkedFaces(F, nv, v, u);
  }

  /** A set that is not empty has a member. */
  lemma Inhabited(s: set<int>)
    requires s != {}
    ensures exists x :: x in s
  {
    assert (forall x :: x !in s) ==> s == {};
  }

  /** `I[0], I[1]` of lines 437-438: two distinct members of a set with at least two. */
  method PickTwo(I: set<int>) returns (a: int, b: int)
    requires |I| > 1
    ensures a in I && b in I && a != b
  {
    Inhabited(I);
    a :| a in I;
    var J := I - {a};
    assert I == J + {a} && |I| == |J| + 1;
    Inhabited(J);
    b :| b in J;
  }

  /** Lines 433-440 for one pair (v, u): link two faces using both, or record an open edge. */
  method LinkPair(F: seq<seq<int>>, nv: nat, VF: map<int, set<int>>, VV: map<int, set<int>>,
                  FF0: seq<set<int>>, closed0: bool, v: int, todo: set<int>, u: int)
    returns (FF: seq<set<int>>, closed: bool)
    requires ValidFaces(F, nv) && VertexSets(F, nv, VF, VV) && v in VV && u in todo && todo <= VV[v]
    requires AdjUpTo(F, nv, VV, FF0, closed0, v, todo)
    ensures AdjUpTo(F, nv, VV, FF, closed, v, todo - {u})
  {
    PairFaces(F, nv, VF, VV, v, u);
    var I := VF[v] * VF[u];
    if |I| != 1 {
      var a, b := PickTwo(I);
      LinkStep(F, nv, VV, FF0, closed0, v, todo, u, a, b);
      FF := FF0[a := FF0[a] + {b}];
      FF := FF[b := FF[b] + {a}];
      assert FF == LinkBoth(FF0, a, b);
      closed := closed0;
    } else {
      OpenStep(F, nv, VV, FF0, closed0, v, todo, u);
      FF, closed := FF0, false;
    }
  }

  /** Lines 431-440 for one vertex v: every pair (v, u) with u in VV[v] is handled. */
  method LinkAround(F: seq<seq<int>>, nv: nat, VF: map<int, set<int>>, VV: map<int, set<int>>,
                    FF0: seq<set<int>>, closed0: bool, v: int)
    returns (FF: seq<set<int>>, closed: bool)
    requires ValidFaces(F, nv) && VertexSets(F, nv, VF, VV) && 1 <= v <= nv
    requires AdjUpTo(F, nv, VV, FF0, closed0, v, VV[v])
    ensures AdjUpTo(F, nv, VV, FF, closed, v, {})
  {
    FF, closed := FF0, closed0;
    var todo := VV[v];
    while todo != {}
      invariant todo <= VV[v]
      invariant AdjUpTo(F, nv, VV, FF, closed, v, todo)
      decreases |todo|
    {
      Inhabited(todo);
      var u :| u in todo;
      FF, closed := LinkPair(F, nv, VF, VV, FF, closed, v, todo, u);
      todo := todo - {u};
    }
  }

  /** Once the loop of line 431 has passed vertex nv, the handled pairs are exactly the edges. */
  lemma AllDone(F: seq<seq<int>>, nv: nat, VF: map<int, set<int>>, VV: map<int, set<int>>, w: int, u: int)
    requires ValidFaces(F, nv) && VertexSets(F, nv, VF, VV)
    ensures Done(VV, nv + 1, Pending(VV, nv + 1), w, u) <==> Linked(F, |F|, w, u)
  {
    if Linked(F, |F|, w, u) {
      LinkedFaces(F, nv, w, u);
    }
  }

  /** The empty links of line 430 are an adjacency. */
  lemma NoLinks(F: seq<seq<int>>, nv: nat, VV: map<int, set<int>>, FF: seq<set<int>>)
    requires ValidFaces(F, nv) && KeyedByIds(VV, nv)
    requires |FF| == |F| && forall x :: 0 <= x < |FF| ==> FF[x] == {}
    ensures AdjUpTo(F, nv, VV, FF, true, 1, Pending(VV, 1))
  {
    assert forall w, u :: !Done(VV, 1, Pending(VV, 1), w, u);
  }

  /**
   * Lines 429-440: FF links, both ways, two faces sharing each edge of the
   * mesh (both faces when the edge has exactly two), and only such faces;
   * the flag stays set exactly when no edge belongs to a single face.
   */
  method BuildAdjacency(F: seq<seq<int>>, nv: nat, VF: map<int, set<int>>, VV: map<int, set<int>>)
    returns (FF: seq<set<int>>, closed: bool)
    requires ValidFaces(F, nv) && VertexSets(F, nv, VF, VV)
    ensures Adjacency(F, nv, FF)
    ensures forall v, u, a, b :: Linked(F, |F|, v, u) && EdgePair(F, v, u, a, b) ==> b in FF[a]
    ensures closed <==> Closed(F, nv)
  {
    FF := seq(|F|, _ => {});
    closed := true;
    NoLinks(F, nv, VV, FF);
    for v := 1 to nv + 1
      invariant AdjUpTo(F, nv, VV, FF, closed, v, Pending(VV, v))
    {
      FF, closed := LinkAround(F, nv, VF, VV, FF, closed, v);
      NextVertex(F, nv, VV, FF, closed, v);
    }
    forall v, u | Linked(F, |F|, v, u)
      ensures Done(VV, nv + 1, Pending(VV, nv + 1), v, u)
    {
      AllDone(F, nv, VF, VV, v, u);
    }
    forall v, u | Done(VV, nv + 1, Pending(VV, nv + 1), v, u)
      ensures Linked(F, |F|, v, u)
    {
      AllDone(F, nv, VF, VV, v, u);
    }
  }

  // ---------------------------------------------------------------------
  // The flood of lines 442-484

  /** Failures of heal_normals: `FVis[0]` on a mesh without faces, or line 467's unpacking. */
  datatype HealError = NoFace | SharedNotTwo

  /**
   * How a face was first reached (line 467): from face parent, across
   * shared vertices a and b, after depth links of the flood from face 0.
   */
  datatype Reach = Reach(parent: int, a: int, b: int, depth: nat)

  /** `set(face)`: the vertices a row names. */
  function Members(f: seq<int>): (s: set<int>)
    ensures forall v :: v in s <==> v in f
  {
    set v | v in f
  }

  /** Every entry of F is a row of four slots. */
  ghost predicate AllRows(F: seq<seq<int>>) {
    forall x :: 0 <= x < |F| ==> IsRow(F[x])
  }

  /** Row x of F is row x of F0, reversed when x is in flipped. */
  ghost predicate RowsFrom(F0: seq<seq<int>>, F: seq<seq<int>>, flipped: set<int>) {
    |F| == |F0| &&
    (forall x :: x in flipped ==> 0 <= x < |F0|) &&
    forall x :: 0 <= x < |F0| ==> F[x] == if x in flipped then Reverse(F0[x]) else F0[x]
  }

  /**
   * The FF of the flood: links only removed, never from an unvisited face,
   * and only links to visited faces.
   */
  ghost predicate LinksLeft(FF0: seq<set<int>>, FF: seq<set<int>>, visited: set<int>) {
    |FF| == |FF0| &&
    forall x :: 0 <= x < |FF0| ==>
      FF[x] <= FF0[x] && (x !in visited ==> FF[x] == FF0[x]) && FF0[x] - FF[x] <= visited
  }

  /** Every visited face other than cur and those on the stack has all its neighbours visited. */
  ghost predicate ClosedBut(FF0: seq<set<int>>, visited: set<int>, stack: seq<int>, cur: int) {
    forall x, y :: x in visited && x !in stack && x != cur && 0 <= x < |FF0| && y in FF0[x] ==> y in visited
  }

  /** Face x was reached as t says, and the test of lines 470-481 holds for it afterwards. */
  ghost predicate Oriented(F0: seq<seq<int>>, F: seq<seq<int>>, FF0: seq<set<int>>, visited: set<int>, x: int, t: Reach)
    requires AllRows(F0) && AllRows(F) && |FF0| == |F| == |F0|
  {
    0 <= x < |F| && 0 <= t.parent < |F| && t.parent in visited && x in FF0[t.parent] && t.a != t.b &&
    Members(F[t.parent]) * Members(F[x]) == {t.a, t.b} &&
    t.a in F[t.parent] && t.a in F[x] &&
    (DistinctSlots(F0[x]) ==> !SameWay(F[t.parent], F[x], t.a, t.b))
  }

  /**
   * Every visited face but face 0 was reached from a visited face, deeper
   * than it, and oriented against it: following parents leads to face 0.
   */
  ghost predicate Tree(F0: seq<seq<int>>, F: seq<seq<int>>, FF0: seq<set<int>>, visited: set<int>, tree: map<int, Reach>)
    requires AllRows(F0) && AllRows(F) && |FF0| == |F| == |F0|
  {
    tree.Keys == visited - {0} &&
    (forall x :: x in tree ==> Oriented(F0, F, FF0, visited, x, tree[x])) &&
    forall x :: x in tree && tree[x].parent in tree ==> tree[tree[x].parent].depth < tree[x].depth
  }

  /** The depth of a face reached from cur: one link more than cur. */
  ghost function Deeper(tree: map<int, Reach>, cur: int): nat
  {
    if cur in tree then tree[cur].depth + 1 else 0
  }

  /** A set of faces holding face 0 and closed under the links FF. */
  ghost predicate ClosedFrom0(FF: seq<set<int>>, S: set<int>) {
    0 in S && forall x, y :: x in S && 0 <= x < |FF| && y in FF[x] ==> y in S
  }

  /**
   * A tree of visited faces lies inside every set holding face 0 and closed
   * under FF0: with Covered, the visited faces are the connected component
   * of face 0 and no more.
   */
  lemma TreeWithin(F0: seq<seq<int>>, F: seq<seq<int>>, FF0: seq<set<int>>, visited: set<int>, tree: map<int, Reach>, S: set<int>)
    requires AllRows(F0) && AllRows(F) && |FF0| == |F| == |F0| && 0 in visited
    requires Tree(F0, F, FF0, visited, tree) && ClosedFrom0(FF0, S)
    ensures visited <= S
  {
    forall x | x in visited ensures x in S {
      if x != 0 {
        ReachedWithin(F0, F, FF0, visited, tree, S, x);
      }
    }
  }

  /** Face x of the tree is in S, by induction on its depth. */
  lemma {:induction false} ReachedWithin(F0: seq<seq<int>>, F: seq<seq<int>>, FF0: seq<set<int>>, visited: set<int>, tree: map<int, Reach>,
                                         S: set<int>, x: int)
    requires AllRows(F0) && AllRows(F) && |FF0| == |F| == |F0|
    requires Tree(F0, F, FF0, visited, tree) && ClosedFrom0(FF0, S) && x in tree
    ensures x in S
    decreases tree[x].depth
  {
    var p := tree[x].parent;
    assert Oriented(F0, F, FF0, visited, x, tree[x]);
    if p != 0 {
      assert p in tree;
      ReachedWithin(F0, F, FF0, visited, tree, S, p);
    }
  }

  /** FF links faces of F both ways and only to faces of F. */
  ghost predicate FaceLinks(FF: seq<set<int>>) {
    Symmetric(FF) && forall x, y :: 0 <= x < |FF| && y in FF[x] ==> 0 <= y < |FF|
  }

  /** Every neighbour of a visited face is visited: the flood has covered the component of face 0. */
  ghost predicate Covered(FF: seq<set<int>>, visited: set<int>) {
    0 in visited && (forall x :: x in visited ==> 0 <= x < |FF|) &&
    forall x, y :: x in visited && y in FF[x] ==> y in visited
  }

  /** Reversing a row keeps its vertex set. */
  lemma MembersReverse(f: seq<int>)
    ensures Members(Reverse(f)) == Members(f)
  {
    ReverseMembers(f);
    assert forall v :: v in Members(Reverse(f)) <==> v in Members(f);
  }

  /** A set of ids below n has at most n members. */
  lemma {:induction false} RangeBound(s: set<int>, n: nat)
    requires forall x :: x in s ==> 0 <= x < n
    ensures |s| <= n
  {
    if n > 0 {
      RangeBound(s - {n - 1}, n - 1);
      assert s <= (s - {n - 1}) + {n - 1};
    } else {
      assert forall x :: x !in s;
      assert (forall x :: x !in s) ==> s == {};
    }
  }

  /** Recording the flip of line 481 for a face not flipped before. */
  lemma RowsFlip(F0: seq<seq<int>>, F: seq<seq<int>>, flipped: set<int>, y: int)
    requires RowsFrom(F0, F, flipped) && 0 <= y < |F0| && y !in flipped
    ensures RowsFrom(F0, F[y := Reverse(F[y])], flipped + {y})
  {
  }

  /** Line 462 for a face y reached from the visited face cur for the first time. */
  lemma LinksVisit(FF0: seq<set<int>>, FF: seq<set<int>>, visited: set<int>, cur: int, y: int)
    requires LinksLeft(FF0, FF, visited) && cur in visited && 0 <= y < |FF0| && y !in visited
    ensures LinksLeft(FF0, FF[y := FF[y] - {cur}], visited + {y})
  {
  }

  /** Visiting y and pushing it (lines 460 and 484) keeps every finished face closed. */
  lemma ClosedVisit(FF0: seq<set<int>>, visited: set<int>, stack: seq<int>, cur: int, y: int)
    requires ClosedBut(FF0, visited, stack, cur)
    ensures ClosedBut(FF0, visited + {y}, stack + [y], cur)
  {
  }

  /** Popping cur off the stack (line 453) makes it the face in progress. */
  lemma ClosedPop(FF0: seq<set<int>>, visited: set<int>, stack: seq<int>)
    requires ClosedBut(FF0, visited, stack, -1) && stack != []
    ensures ClosedBut(FF0, visited, stack[..|stack| - 1], stack[|stack| - 1])
  {
    var cur := stack[|stack| - 1];
    forall x, y | x in visited && x !in stack[..|stack| - 1] && x != cur && 0 <= x < |FF0| && y in FF0[x]
      ensures y in visited
    {
      assert stack == stack[..|stack| - 1] + [cur];
    }
  }

  /** Once every link left at cur leads to a visited face, cur is finished. */
  lemma ClosedFinish(FF0: seq<set<int>>, FF: seq<set<int>>, visited: set<int>, stack: seq<int>, cur: int)
    requires ClosedBut(FF0, visited, stack, cur) && LinksLeft(FF0, FF, visited) && 0 <= cur < |FF0|
    requires FF[cur] <= visited
    ensures ClosedBut(FF0, visited, stack, -1)
  {
    forall y | y in FF0[cur] ensures y in visited {
      assert y in FF[cur] || y in FF0[cur] - FF[cur];
    }
  }

  /** The face y reached from cur across a and b passes the test of lines 470-481 once handled. */
  lemma OrientVisit(F0: seq<seq<int>>, F: seq<seq<int>>, FF0: seq<set<int>>, visited: set<int>, cur: int, y: int, a: int, b: int, depth: nat)
    requires AllRows(F0) && AllRows(F) && |FF0| == |F| == |F0|
    requires 0 <= cur < |F| && cur in visited && 0 <= y < |F| && y !in visited && y in FF0[cur]
    requires F[y] == F0[y] && a != b && Members(F[cur]) * Members(F[y]) == {a, b}
    ensures a in F[cur] && a in F[y]
    ensures var row := if SameWay(F[cur], F[y], a, b) then Reverse(F[y]) else F[y];
      Oriented(F0, F[y := row], FF0, visited + {y}, y, Reach(cur, a, b, depth))
  {
    assert a in Members(F[cur]) * Members(F[y]);
    var row := if SameWay(F[cur], F[y], a, b) then Reverse(F[y]) else F[y];
    var F' := F[y := row];
    assert F'[cur] == F[cur] && F'[y] == row;
    assert Members(row) == Members(F[y]) && a in row by {
      MembersReverse(F[y]);
    }
    if DistinctSlots(F0[y]) && SameWay(F[cur], F[y], a, b) {
      ReverseFixesOrientation(F[cur], F[y], a, b);
    }
  }

  /** Changing the row of the unvisited face y, keeping its vertices, leaves the tree as it was. */
  lemma TreeVisit(F0: seq<seq<int>>, F: seq<seq<int>>, FF0: seq<set<int>>, visited: set<int>, tree: map<int, Reach>,
                  y: int, row: seq<int>, t: Reach)
    requires AllRows(F0) && AllRows(F) && |FF0| == |F| == |F0| && 0 <= y < |F| && y !in visited && IsRow(row)
    requires 0 in visited && Members(row) == Members(F[y]) && Tree(F0, F, FF0, visited, tree)
    requires Oriented(F0, F[y := row], FF0, visited + {y}, y, t)
    requires t.parent in visited && (t.parent in tree ==> tree[t.parent].depth < t.depth)
    ensures AllRows(F[y := row])
    ensures Tree(F0, F[y := row], FF0, visited + {y}, tree[y := t])
  {
    var F' := F[y := row];
    var tree' := tree[y := t];
    forall x | x in tree'
      ensures Oriented(F0, F', FF0, visited + {y}, x, tree'[x])
      ensures tree'[x].parent in tree' ==> tree'[tree'[x].parent].depth < tree'[x].depth
    {
      if x != y {
        var p := tree[x].parent;
        assert Oriented(F0, F, FF0, visited, x, tree[x]);
        assert F'[x] == F[x] && F'[p] == F[p];
        assert p != y;
      }
    }
  }

  /** What the flood of lines 448-484 keeps true, with cur the face in progress (-1 for none). */
  ghost predicate FloodInv(F0: seq<seq<int>>, F: seq<seq<int>>, FF0: seq<set<int>>, FF: seq<set<int>>,
                           visited: set<int>, stack: seq<int>, flipped: set<int>, count: int, tree: map<int, Reach>, cur: int)
    requires AllRows(F0) && |FF0| == |F0|
  {
    AllRows(F) && RowsFrom(F0, F, flipped) && flipped <= visited && count == |flipped| &&
    (forall x :: x in visited ==> 0 <= x < |F0|) && 0 in visited && |visited| <= |F0| &&
    (forall x :: x in stack ==> x in visited) &&
    LinksLeft(FF0, FF, visited) && ClosedBut(FF0, visited, stack, cur) &&
    Tree(F0, F, FF0, visited, tree)
  }

  /** Lines 460-484 for a face y first reached from cur across the shared vertices a and b. */
  lemma VisitStep(F0: seq<seq<int>>, F: seq<seq<int>>, FF0: seq<set<int>>, FF: seq<set<int>>,
                  visited: set<int>, stack: seq<int>, flipped: set<int>, count: int, tree: map<int, Reach>,
                  cur: int, y: int, a: int, b: int, row: seq<int>, flipped': set<int>, count': int)
    requires AllRows(F0) && |FF0| == |F0| && FaceLinks(FF0)
    requires FloodInv(F0, F, FF0, FF, visited, stack, flipped, count, tree, cur)
    requires 0 <= cur < |F0| && cur in visited && y in FF[cur] && y !in visited
    requires a != b && Members(F[cur]) * Members(F[y]) == {a, b} && a in F[cur] && a in F[y]
    requires SameWay(F[cur], F[y], a, b) ==> row == Reverse(F[y]) && flipped' == flipped + {y} && count' == count + 1
    requires !SameWay(F[cur], F[y], a, b) ==> row == F[y] && flipped' == flipped && count' == count
    ensures 0 <= y < |F0|
    ensures FloodInv(F0, F[y := row], FF0, FF[y := FF[y] - {cur}], visited + {y}, stack + [y],
                     flipped', count', tree[y := Reach(cur, a, b, Deeper(tree, cur))], cur)
  {
    assert 0 <= y < |F0| && F[y] == F0[y];
    LinksVisit(FF0, FF, visited, cur, y);
    ClosedVisit(FF0, visited, stack, cur, y);
    OrientVisit(F0, F, FF0, visited, cur, y, a, b, Deeper(tree, cur));
    MembersReverse(F[y]);
    TreeVisit(F0, F, FF0, visited, tree, y, row, Reach(cur, a, b, Deeper(tree, cur)));
    FlipVisit(F0, F, visited, flipped, count, y, SameWay(F[cur], F[y], a, b), row, flipped', count');
  }

  /** The rows, flips and count of lines 478-481 for the newly visited face y. */
  lemma FlipVisit(F0: seq<seq<int>>, F: seq<seq<int>>, visited: set<int>, flipped: set<int>, count: int,
                  y: int, flip: bool, row: seq<int>, flipped': set<int>, count': int)
    requires RowsFrom(F0, F, flipped) && flipped <= visited && count == |flipped|
    requires (forall x :: x in visited ==> 0 <= x < |F0|) && 0 <= y < |F0| && y !in visited
    requires flip ==> row == Reverse(F[y]) && flipped' == flipped + {y} && count' == count + 1
    requires !flip ==> row == F[y] && flipped' == flipped && count' == count
    ensures RowsFrom(F0, F[y := row], flipped') && flipped' <= visited + {y} && count' == |flipped'|
    ensures (forall x :: x in visited + {y} ==> 0 <= x < |F0|) && |visited + {y}| <= |F0|
  {
    if flip {
      RowsFlip(F0, F, flipped, y);
      assert y !in flipped;
      assert |flipped + {y}| == |flipped| + 1;
    } else {
      assert F[y := row] == F;
    }
    RangeBound(visited + {y}, |F0|);
  }

  /** A pair of linked faces that do not share exactly two vertices in F0. */
  ghost predicate BadPair(F0: seq<seq<int>>, FF0: seq<set<int>>)
    requires |FF0| == |F0|
  {
    exists x, y :: 0 <= x < |FF0| && 0 <= y < |FF0| && y in FF0[x] && |Members(F0[x]) * Members(F0[y])| != 2
  }

  /**
   * Lines 453-484 for the face iface just popped: every neighbour left in
   * FF[iface] that is not yet visited is visited, unlinked from iface,
   * reversed when it runs the shared edge the same way, and pushed.
   */
  method Spread(F: array<seq<int>>, ghost F0: seq<seq<int>>, FF0: seq<set<int>>,
                FF1: seq<set<int>>, visited1: set<int>, stack1: seq<int>, count1: nat,
                ghost flipped1: set<int>, ghost tree1: map<int, Reach>, iface: int)
    returns (ok: bool, FF: seq<set<int>>, visited: set<int>, stack: seq<int>, count: nat,
             ghost flipped: set<int>, ghost tree: map<int, Reach>)
    requires AllRows(F0) && |FF0| == |F0| == F.Length && FaceLinks(FF0)
    requires FloodInv(F0, F[..], FF0, FF1, visited1, stack1, flipped1, count1, tree1, iface) && iface in visited1
    modifies F
    ensures AllRows(F[..]) && RowsFrom(F0, F[..], flipped)
    ensures ok ==> FloodInv(F0, F[..], FF0, FF, visited, stack, flipped, count, tree, -1)
    ensures ok ==> visited1 <= visited && |visited| >= |visited1| && |stack| == |stack1| + |visited| - |visited1|
    ensures !ok ==> BadPair(F0, FF0)
  {
    FF, visited, stack, count, flipped, tree := FF1, visited1, stack1, count1, flipped1, tree1;
    var face := F[iface];
    var S1 := Members(face);
    var todo := FF[iface];
    while todo != {}
      invariant FloodInv(F0, F[..], FF0, FF, visited, stack, flipped, count, tree, iface)
      invariant iface in visited && F[iface] == face && todo <= FF[iface]
      invariant forall y :: y in FF[iface] && y !in todo ==> y in visited
      invariant visited1 <= visited && |visited| >= |visited1| && |stack| == |stack1| + |visited| - |visited1|
      decreases |todo|
    {
      Inhabited(todo);
      var y :| y in todo;
      todo := todo - {y};
      if y in visited {
        continue;
      }
      var adjface := F[y];
      var S := S1 * Members(adjface);
      if |S| != 2 {
        SharedWitness(F0, F[..], flipped, FF0, iface, y);
        return false, FF, visited, stack, count, flipped, tree;
      }
      FF, visited, stack, count, flipped, tree := Visit(F, F0, FF0, FF, visited, stack, count, flipped, tree, iface, y, S);
    }
    assert forall y :: y in FF[iface] ==> y in visited;
    ClosedFinish(FF0, FF, visited, stack, iface);
    ok := true;
  }

  /**
   * Lines 467-484 for a face y first reached from iface, sharing the two
   * vertices S with it: y is visited, unlinked from iface, reversed when it
   * runs the shared edge the same way, and pushed.
   */
  method Visit(F: array<seq<int>>, ghost F0: seq<seq<int>>, FF0: seq<set<int>>,
               FF1: seq<set<int>>, visited1: set<int>, stack1: seq<int>, count1: nat,
               ghost flipped1: set<int>, ghost tree1: map<int, Reach>, iface: int, y: int, S: set<int>)
    returns (FF: seq<set<int>>, visited: set<int>, stack: seq<int>, count: nat,
             ghost flipped: set<int>, ghost tree: map<int, Reach>)
    requires AllRows(F0) && |FF0| == |F0| == F.Length && FaceLinks(FF0)
    requires FloodInv(F0, F[..], FF0, FF1, visited1, stack1, flipped1, count1, tree1, iface) && iface in visited1
    requires 0 <= iface < F.Length && y in FF1[iface] && y !in visited1
    requires S == Members(F[iface]) * Members(F[y]) && |S| == 2
    modifies F
    ensures FloodInv(F0, F[..], FF0, FF, visited, stack, flipped, count, tree, iface)
    ensures F[iface] == old(F[iface]) && FF[iface] == FF1[iface]
    ensures visited == visited1 + {y} && stack == stack1 + [y]
  {
    var face, adjface := F[iface], F[y];
    var a, b := PickTwo(S);
    PairIsAll(S, a, b);
    assert a in S;
    var flip := SameWay(face, adjface, a, b);
    ghost var Fs := F[..];
    ghost var row := if flip then Reverse(adjface) else adjface;
    visited := visited1 + {y};
    FF := FF1[y := FF1[y] - {iface}];
    count, flipped := count1, flipped1;
    if flip {
      count, flipped := count + 1, flipped + {y};
    }
    VisitStep(F0, Fs, FF0, FF1, visited1, stack1, flipped1, count1, tree1, iface, y, a, b, row, flipped, count);
    if flip {
      F[y] := Reverse(F[y]);
    }
    assert F[..] == Fs[y := row];
    tree := tree1[y := Reach(iface, a, b, Deeper(tree1, iface))];
    stack := stack1 + [y];
  }

  /**
   * Lines 448-484: a depth-first flood from face 0 over FF. Each face is
   * reached once, from a visited face sharing exactly two vertices with it,
   * and reversed when it runs the shared edge the same way; the result is
   * the number of reversed faces. The faces reached are exactly those
   * linked to face 0 through FF, and no other row changes.
   */
  method Flood(F: array<seq<int>>, FF0: seq<set<int>>)
    returns (r: Result<nat, HealError>, ghost reached: set<int>, ghost flipped: set<int>, ghost tree: map<int, Reach>)
    requires AllRows(F[..]) && |FF0| == F.Length && FaceLinks(FF0)
    modifies F
    ensures AllRows(F[..]) && RowsFrom(old(F[..]), F[..], flipped)
    ensures r == Err(NoFace) <==> F.Length == 0
    ensures r.Ok? ==> r.value == |flipped| && flipped <= reached && Covered(FF0, reached)
    ensures r.Ok? ==> Tree(old(F[..]), F[..], FF0, reached, tree)
    ensures r.Ok? ==> forall S :: ClosedFrom0(FF0, S) ==> reached <= S
    ensures r.Ok? ==> forall x :: 0 <= x < F.Length && x !in reached ==> F[x] == old(F[x])
    ensures r == Err(SharedNotTwo) ==> BadPair(old(F[..]), FF0)
  {
    ghost var F0 := F[..];
    var nf := F.Length;
    reached, flipped, tree := {}, {}, map[];
    if nf == 0 {
      r := Err(NoFace);
      return;
    }
    var FF := FF0;
    var visited := {0};
    var stack := [0];
    var count := 0;
    while stack != []
      invariant FloodInv(F0, F[..], FF0, FF, visited, stack, flipped, count, tree, -1)
      decreases nf - |visited|, |stack|
    {
      ClosedPop(FF0, visited, stack);
      var iface := stack[|stack| - 1];
      assert iface in stack;
      stack := stack[..|stack| - 1];
      var ok;
      ok, FF, visited, stack, count, flipped, tree := Spread(F, F0, FF0, FF, visited, stack, count, flipped, tree, iface);
      if !ok {
        r, reached := Err(SharedNotTwo), visited;
        return;
      }
    }
    r, reached := Ok(count), visited;
    forall S | ClosedFrom0(FF0, S)
      ensures reached <= S
    {
      TreeWithin(F0, F[..], FF0, reached, tree, S);
    }
  }

  /** The faces x and y of a failed unpacking at line 467 share as many vertices as their original rows. */
  lemma SharedWitness(F0: seq<seq<int>>, F: seq<seq<int>>, flipped: set<int>, FF0: seq<set<int>>, x: int, y: int)
    requires RowsFrom(F0, F, flipped) && |FF0| == |F0| && 0 <= x < |F0| && 0 <= y < |F0| && y in FF0[x]
    requires |Members(F[x]) * Members(F[y])| != 2
    ensures BadPair(F0, FF0)
  {
    MembersReverse(F0[x]);
    MembersReverse(F0[y]);
    assert Members(F[x]) == Members(F0[x]) && Members(F[y]) == Members(F0[y]);
  }

  // ---------------------------------------------------------------------
  // heal_normals, lines 405-520

  /** Reversing rows keeps every id a vertex id. */
  lemma RowsValid(F0: seq<seq<int>>, F: seq<seq<int>>, flipped: set<int>, nv: int)
    requires ValidFaces(F0, nv) && RowsFrom(F0, F, flipped)
    ensures ValidFaces(F, nv) && AllRows(F)
  {
    forall x | 0 <= x < |F| ensures RowIn(F[x], nv) {
      assert RowIn(F0[x], nv);
    }
  }

  /** An adjacency of the faces of F is a set of links the flood can follow. */
  lemma AdjacencyLinks(F: seq<seq<int>>, nv: int, FF: seq<set<int>>)
    requires ValidFaces(F, nv) && Adjacency(F, nv, FF)
    ensures FaceLinks(FF)
  {
  }

  /**
   * Lines 405-520. The flood reorients the faces in place, one connected
   * piece from face 0; when no edge of the mesh belongs to a single face,
   * all faces are reversed once more if the z component of the flux
   * (`hs[2]`, computed by outwardZ from the vertices and faces) is negative.
   * The faces reached were each reversed at most once, every link of the
   * flood crosses a shared edge, and every face reached runs its shared
   * edge opposite to the face it was reached from.
   */
  method HealNormals(V: seq<Vec3>, F: array<seq<int>>, outwardZ: (seq<Vec3>, seq<seq<int>>) -> real)
    returns (r: Result<seq<seq<int>>, HealError>, ghost FF: seq<set<int>>, ghost reached: set<int>,
             ghost flipped: set<int>, ghost tree: map<int, Reach>)
    requires ValidFaces(F[..], |V|)
    modifies F
    ensures RowsFrom(old(F[..]), F[..], flipped) && ValidFaces(F[..], |V|)
    ensures Adjacency(old(F[..]), |V|, FF)
    ensures forall v, u, a, b :: Linked(old(F[..]), |F[..]|, v, u) && EdgePair(old(F[..]), v, u, a, b) ==> b in FF[a]
    ensures r == Err(NoFace) <==> F.Length == 0
    ensures r == Err(SharedNotTwo) ==> BadPair(old(F[..]), FF)
    ensures r.Ok? ==> flipped <= reached && Covered(FF, reached)
    ensures r.Ok? ==> Tree(old(F[..]), F[..], FF, reached, tree)
    ensures r.Ok? ==> forall S :: ClosedFrom0(FF, S) ==> reached <= S
    ensures r.Ok? ==> forall x :: 0 <= x < F.Length && x !in reached ==> F[x] == old(F[x])
    ensures r.Ok? ==> r.value == if Closed(old(F[..]), |V|) && outwardZ(V, F[..]) < 0.0 then FlipNormals(F[..]) else F[..]
  {
    ghost var F0 := F[..];
    var nv := |V|;
    var VF, VV := BuildVertexSets(F[..], nv);
    var links, closed := BuildAdjacency(F[..], nv, VF, VV);
    FF := links;
    AdjacencyLinks(F0, nv, links);
    assert AllRows(F0) by {
      RowsValid(F0, F0, {}, nv);
    }
    var flood;
    flood, reached, flipped, tree := Flood(F, links);
    RowsValid(F0, F[..], flipped, nv);
    if flood.Err? {
      return Err(flood.error), FF, reached, flipped, tree;
    }
    var rows := F[..];
    if closed && outwardZ(V, rows) < 0.0 {
      rows := FlipNormals(rows);
    }
    r := Ok(rows);
  }
}
