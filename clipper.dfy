/**
 * The imperative part of meshmagick.py `clip_by_plane`: the walk that
 * inserts intersection points into a clipped face, the boundary edge
 * dictionary, the stitching of the boundary polygon, and the whole clip.
 */
module Clipper {
  import opened Geometry
  import opened Results
  import opened Planes
  import opened Mesh
  import opened Seqs
  import opened Clipping

  /** The keep flags of two vertices differ: the edge between them crosses the plane. */
  predicate Straddles(d: seq<real>, tol: real, a: int, b: int)
    requires 0 <= a < |d| && 0 <= b < |d|
  {
    (d[a] <= tol) != (d[b] <= tol)
  }

  /** The reverse of a directed edge. */
  function Rev(k: (int, int)): (r: (int, int))
    ensures r.0 == k.1 && r.1 == k.0
  {
    (k.1, k.0)
  }

  /**
   * The edge cache as the walk leaves it, built from the crossing edges in
   * the order their points were made: edge j, in both directions, maps to
   * id nv + j.
   */
  function CacheOf(nv: int, ends: seq<(int, int)>): EdgeCache
    decreases |ends|
  {
    if |ends| == 0 then map[]
    else
      var k, id := ends[|ends| - 1], nv + |ends| - 1;
      CacheOf(nv, ends[..|ends| - 1])[k := id][Rev(k) := id]
  }

  /** Each edge recorded, in either direction, is a key of the cache. */
  lemma {:induction false} CacheOfHas(nv: int, ends: seq<(int, int)>, j: int)
    requires 0 <= j < |ends|
    ensures ends[j] in CacheOf(nv, ends) && Rev(ends[j]) in CacheOf(nv, ends)
    decreases |ends|
  {
    if j < |ends| - 1 {
      CacheOfHas(nv, ends[..|ends| - 1], j);
    }
  }

  /** Every key is a recorded edge, in one direction or the other, and maps to its id. */
  lemma {:induction false} CacheOfLookup(nv: int, ends: seq<(int, int)>, k: (int, int)) returns (j: int)
    requires k in CacheOf(nv, ends)
    ensures 0 <= j < |ends| && (k == ends[j] || k == Rev(ends[j])) && CacheOf(nv, ends)[k] == nv + j
    decreases |ends|
  {
    var n := |ends|;
    if k == ends[n - 1] || k == Rev(ends[n - 1]) {
      j := n - 1;
    } else {
      j := CacheOfLookup(nv, ends[..n - 1], k);
    }
  }

  /** The cache is symmetric: an edge and its reverse share one id. */
  lemma {:induction false} CacheOfSymmetric(nv: int, ends: seq<(int, int)>, k: (int, int))
    requires k in CacheOf(nv, ends)
    ensures Rev(k) in CacheOf(nv, ends) && CacheOf(nv, ends)[Rev(k)] == CacheOf(nv, ends)[k]
    decreases |ends|
  {
    var n := |ends|;
    if k != ends[n - 1] && k != Rev(ends[n - 1]) {
      CacheOfSymmetric(nv, ends[..n - 1], k);
    }
  }

  /** No edge is recorded twice, in either direction. */
  predicate DistinctEdges(ends: seq<(int, int)>)
  {
    forall i, j :: 0 <= i < j < |ends| ==> ends[i] != ends[j] && ends[i] != Rev(ends[j])
  }

  /** The j-th new point is the intersection point of the crossing edge ends[j]. */
  ghost predicate EdgePoints(V: seq<Vec3>, d: seq<real>, tol: real, newV: seq<Vec3>, ends: seq<(int, int)>)
    requires |d| == |V|
  {
    |ends| == |newV| &&
    forall j :: 0 <= j < |ends| ==>
      0 <= ends[j].0 < |V| && 0 <= ends[j].1 < |V| && Straddles(d, tol, ends[j].0, ends[j].1) &&
      newV[j] == Cut(V[ends[j].0], V[ends[j].1], d[ends[j].0], d[ends[j].1])
  }

  /**
   * The state of the walk: the cache holds exactly the recorded crossing
   * edges, each recorded once, each with its intersection point.
   */
  ghost predicate CacheValid(cache: EdgeCache, V: seq<Vec3>, d: seq<real>, tol: real, newV: seq<Vec3>, ends: seq<(int, int)>)
    requires |d| == |V|
  {
    cache == CacheOf(|V|, ends) && DistinctEdges(ends) && EdgePoints(V, d, tol, newV, ends)
  }

  /** A cached edge's id names the edge's intersection point, whichever direction it was recorded in. */
  lemma CacheFetch(cache: EdgeCache, V: seq<Vec3>, d: seq<real>, tol: real, newV: seq<Vec3>, ends: seq<(int, int)>, a: int, b: int)
    requires |d| == |V| && CacheValid(cache, V, d, tol, newV, ends)
    requires (a, b) in cache
    ensures 0 <= a < |V| && 0 <= b < |V| && Straddles(d, tol, a, b)
    ensures |V| <= cache[(a, b)] < |V| + |newV|
    ensures newV[cache[(a, b)] - |V|] == Cut(V[a], V[b], d[a], d[b])
  {
    var j := CacheOfLookup(|V|, ends, (a, b));
    if (a, b) != ends[j] {
      CutSymmetric(V[b], V[a], d[b], d[a]);
    }
  }

  lemma DistinctExtend(nv: int, ends: seq<(int, int)>, a: int, b: int)
    requires DistinctEdges(ends) && (a, b) !in CacheOf(nv, ends) && (b, a) !in CacheOf(nv, ends)
    ensures DistinctEdges(ends + [(a, b)])
  {
    var ends' := ends + [(a, b)];
    forall i, j | 0 <= i < j < |ends'|
      ensures ends'[i] != ends'[j] && ends'[i] != Rev(ends'[j])
    {
      if j == |ends| {
        CacheOfHas(nv, ends, i);
      } else {
        assert ends'[i] == ends[i] && ends'[j] == ends[j];
      }
    }
  }

  lemma EdgePointsExtend(V: seq<Vec3>, d: seq<real>, tol: real, newV: seq<Vec3>, ends: seq<(int, int)>, a: int, b: int)
    requires |d| == |V| && EdgePoints(V, d, tol, newV, ends)
    requires 0 <= a < |V| && 0 <= b < |V| && Straddles(d, tol, a, b)
    ensures EdgePoints(V, d, tol, newV + [Cut(V[a], V[b], d[a], d[b])], ends + [(a, b)])
  {
    var ends' := ends + [(a, b)];
    var newV' := newV + [Cut(V[a], V[b], d[a], d[b])];
    forall j | 0 <= j < |ends'|
      ensures 0 <= ends'[j].0 < |V| && 0 <= ends'[j].1 < |V| && Straddles(d, tol, ends'[j].0, ends'[j].1)
      ensures newV'[j] == Cut(V[ends'[j].0], V[ends'[j].1], d[ends'[j].0], d[ends'[j].1])
    {
      if j < |ends| {
        assert ends'[j] == ends[j] && newV'[j] == newV[j];
      }
    }
  }

  /** Recording a new crossing edge with its fresh point keeps the cache valid. */
  lemma CacheInsert(cache: EdgeCache, V: seq<Vec3>, d: seq<real>, tol: real, newV: seq<Vec3>, ends: seq<(int, int)>, a: int, b: int)
    requires |d| == |V| && CacheValid(cache, V, d, tol, newV, ends)
    requires 0 <= a < |V| && 0 <= b < |V| && Straddles(d, tol, a, b)
    requires (a, b) !in cache
    ensures (b, a) !in cache
    ensures var id := |V| + |newV|;
      CacheValid(cache[(a, b) := id][(b, a) := id], V, d, tol,
                 newV + [Cut(V[a], V[b], d[a], d[b])], ends + [(a, b)])
  {
    if (b, a) in cache {
      CacheOfSymmetric(|V|, ends, (b, a));
    }
    var ends' := ends + [(a, b)];
    assert ends'[..|ends'| - 1] == ends;
    DistinctExtend(|V|, ends, a, b);
    EdgePointsExtend(V, d, tol, newV, ends, a, b);
  }

  /** One step of the walk at a crossing slot: inserting its point extends the expansion by that slot. */
  lemma WalkStepCrossing(ring: seq<int>, kr: seq<bool>, cache: EdgeCache, iv: int, faceW: seq<int>, pos: seq<bool>, q: int)
    requires |ring| == |kr| && 0 <= iv < |ring|
    requires Covers(ring, kr, cache, iv + 1, |ring|)
    requires Crossing(kr, iv) && (ring[Prev(|ring|, iv)], ring[iv]) in cache
    requires q == cache[(ring[Prev(|ring|, iv)], ring[iv])]
    requires faceW == ring[..iv + 1] + Expand(ring, kr, cache, iv + 1, |ring|)
    requires pos == kr[..iv + 1] + ExpandPos(kr, iv + 1, |ring|)
    ensures Covers(ring, kr, cache, iv, |ring|)
    ensures faceW[..iv] + [q] + faceW[iv..] == ring[..iv] + Expand(ring, kr, cache, iv, |ring|)
    ensures pos[..iv] + [true] + pos[iv..] == kr[..iv] + ExpandPos(kr, iv, |ring|)
  {
    var rest := Expand(ring, kr, cache, iv + 1, |ring|);
    assert ring[..iv + 1] == ring[..iv] + [ring[iv]];
    assert faceW[..iv] == ring[..iv];
    assert faceW[iv..] == [ring[iv]] + rest;
    assert kr[..iv + 1] == kr[..iv] + [kr[iv]];
    assert pos[..iv] == kr[..iv];
    assert pos[iv..] == [kr[iv]] + ExpandPos(kr, iv + 1, |ring|);
  }

  /** One step of the walk at a slot whose edge does not cross: nothing changes. */
  lemma WalkStepPlain(ring: seq<int>, kr: seq<bool>, cache: EdgeCache, iv: int, faceW: seq<int>, pos: seq<bool>)
    requires |ring| == |kr| && 0 <= iv < |ring|
    requires Covers(ring, kr, cache, iv + 1, |ring|)
    requires !Crossing(kr, iv)
    requires faceW == ring[..iv + 1] + Expand(ring, kr, cache, iv + 1, |ring|)
    requires pos == kr[..iv + 1] + ExpandPos(kr, iv + 1, |ring|)
    ensures Covers(ring, kr, cache, iv, |ring|)
    ensures faceW == ring[..iv] + Expand(ring, kr, cache, iv, |ring|)
    ensures pos == kr[..iv] + ExpandPos(kr, iv, |ring|)
  {
    assert ring[..iv + 1] == ring[..iv] + [ring[iv]];
    assert kr[..iv + 1] == kr[..iv] + [kr[iv]];
  }

  /**
   * Midway through the walk, slot iv is still at index iv and the slot
   * before it is at index iv - 1, or for iv = 0 at the end (index -1).
   */
  lemma WalkSlots(ring: seq<int>, kr: seq<bool>, cache: EdgeCache, iv: int, faceW: seq<int>, pos: seq<bool>, p: int)
    requires |ring| == |kr| && 0 <= iv < |ring|
    requires Covers(ring, kr, cache, iv + 1, |ring|)
    requires faceW == ring[..iv + 1] + Expand(ring, kr, cache, iv + 1, |ring|)
    requires pos == kr[..iv + 1] + ExpandPos(kr, iv + 1, |ring|)
    requires p == (if iv == 0 then |pos| - 1 else iv - 1)
    ensures |faceW| == |pos| && 0 <= p < |pos|
    ensures pos[p] == kr[Prev(|ring|, iv)] && faceW[p] == ring[Prev(|ring|, iv)]
    ensures pos[iv] == kr[iv] && faceW[iv] == ring[iv]
  {
    var n := |ring|;
    ExpandLength(ring, kr, cache, iv + 1, n);
    var A, R := ring[..iv + 1], Expand(ring, kr, cache, iv + 1, n);
    var B, Q := kr[..iv + 1], ExpandPos(kr, iv + 1, n);
    assert faceW[iv] == A[iv] && pos[iv] == B[iv];
    assert Prev(n, iv) == if iv == 0 then n - 1 else iv - 1;
    if iv > 0 {
      assert faceW[iv - 1] == A[iv - 1] && pos[iv - 1] == B[iv - 1];
    } else if n > 1 {
      ExpandLast(ring, kr, cache, iv + 1, n);
      assert faceW[p] == R[|R| - 1] && pos[p] == Q[|Q| - 1];
    } else {
      assert p == 0;
    }
  }

  /** Inserting a kept id flagged kept keeps every kept entry a kept vertex. */
  lemma InsertKept(faceW: seq<int>, pos: seq<bool>, iv: int, q: int, keep: seq<bool>, nNew: int)
    requires |faceW| == |pos| && 0 <= iv <= |pos|
    requires forall j :: 0 <= j < |pos| && pos[j] ==> KeptId(faceW[j], keep, nNew)
    requires KeptId(q, keep, nNew)
    ensures var f', p' := faceW[..iv] + [q] + faceW[iv..], pos[..iv] + [true] + pos[iv..];
      |f'| == |p'| && forall j :: 0 <= j < |p'| && p'[j] ==> KeptId(f'[j], keep, nNew)
  {
    var f', p' := faceW[..iv] + [q] + faceW[iv..], pos[..iv] + [true] + pos[iv..];
    forall j | 0 <= j < |p'| && p'[j]
      ensures KeptId(f'[j], keep, nNew)
    {
      if j < iv {
        assert f'[j] == faceW[j] && p'[j] == pos[j];
      } else if j > iv {
        assert f'[j] == faceW[j - 1] && p'[j] == pos[j - 1];
      }
    }
  }

  /** e is the edge into some slot of the ring, from the slot before it. */
  ghost predicate EdgeOf(ring: seq<int>, e: (int, int))
  {
    exists i :: 0 <= i < |ring| && e == (ring[Prev(|ring|, i)], ring[i])
  }

  /** Recording more edges into slot iv keeps every edge recorded since ends0 an edge of the ring. */
  lemma EdgesOfRing(ring: seq<int>, ends0: seq<(int, int)>, ends1: seq<(int, int)>, ends: seq<(int, int)>, iv: int)
    requires 0 <= iv < |ring|
    requires ends0 <= ends1 && forall k :: |ends0| <= k < |ends1| ==> EdgeOf(ring, ends1[k])
    requires ends1 <= ends && forall k :: |ends1| <= k < |ends| ==> ends[k] == (ring[Prev(|ring|, iv)], ring[iv])
    ensures ends0 <= ends && forall k :: |ends0| <= k < |ends| ==> EdgeOf(ring, ends[k])
  {
    forall k | |ends0| <= k < |ends|
      ensures EdgeOf(ring, ends[k])
    {
      if k < |ends1| {
        assert ends[k] == ends1[k];
      }
    }
  }

  /**
   * Lines 205-240 for the edge a -> b: the id of its intersection point,
   * fetched from the cache, or computed, appended to the new points and
   * cached both ways.
   */
  method EdgePoint(V: seq<Vec3>, d: seq<real>, tol: real, cache0: EdgeCache, newV0: seq<Vec3>,
                   ghost ends0: seq<(int, int)>, a: int, b: int)
    returns (q: int, cache: EdgeCache, newV: seq<Vec3>, ghost ends: seq<(int, int)>)
    requires |d| == |V| && 0 <= a < |V| && 0 <= b < |V| && Straddles(d, tol, a, b)
    requires CacheValid(cache0, V, d, tol, newV0, ends0)
    ensures CacheValid(cache, V, d, tol, newV, ends)
    ensures forall k :: k in cache0 ==> k in cache && cache[k] == cache0[k]
    ensures newV0 <= newV
    ensures (a, b) in cache && cache[(a, b)] == q
    ensures |V| <= q < |V| + |newV| && newV[q - |V|] == Cut(V[a], V[b], d[a], d[b])
    ensures ends == ends0 || ends == ends0 + [(a, b)]
  {
    if (a, b) in cache0 {
      CacheFetch(cache0, V, d, tol, newV0, ends0, a, b);
      q, cache, newV, ends := cache0[(a, b)], cache0, newV0, ends0;
    } else {
      CacheInsert(cache0, V, d, tol, newV0, ends0, a, b);
      q := |V| + |newV0|;
      cache := cache0[(a, b) := q][(b, a) := q];
      newV := newV0 + [Cut(V[a], V[b], d[a], d[b])];
      ends := ends0 + [(a, b)];
    }
  }

  /**
   * The walk of lines 199-243 over one clipped face, slots from last to
   * first: where the slot before (index -1 wrapping to the last) differs in
   * keep flag, the intersection point of that edge (fetched from the cache
   * or computed and cached both ways) is inserted before the slot, flagged
   * kept. Ends with the expanded ring and its flags.
   */
  method InsertIntersections(V: seq<Vec3>, d: seq<real>, tol: real, ring: seq<int>,
                             cache0: EdgeCache, newV0: seq<Vec3>, ghost ends0: seq<(int, int)>)
    returns (faceW: seq<int>, pos: seq<bool>, cache: EdgeCache, newV: seq<Vec3>, ghost ends: seq<(int, int)>)
    requires |d| == |V| && |ring| >= 1 && InRange(ring, |V|)
    requires CacheValid(cache0, V, d, tol, newV0, ends0)
    ensures CacheValid(cache, V, d, tol, newV, ends)
    ensures forall k :: k in cache0 ==> k in cache && cache[k] == cache0[k]
    ensures newV0 <= newV
    ensures var kr := At(KeepMask(d, tol), ring);
      Covers(ring, kr, cache, 0, |ring|) &&
      faceW == Expand(ring, kr, cache, 0, |ring|) && pos == ExpandPos(kr, 0, |ring|)
    ensures |faceW| == |pos|
    ensures forall j :: 0 <= j < |pos| && pos[j] ==> KeptId(faceW[j], KeepMask(d, tol), |newV|)
    ensures ends0 <= ends && forall k :: |ends0| <= k < |ends| ==> EdgeOf(ring, ends[k])
  {
    var keep := KeepMask(d, tol);
    var kr := At(keep, ring);
    var n := |ring|;
    assert |kr| == n;
    cache, newV, ends := cache0, newV0, ends0;
    faceW, pos := ring, kr;
    assert ring[..n] == ring && kr[..n] == kr;
    assert Expand(ring, kr, cache, n, n) == [] && ExpandPos(kr, n, n) == [];
    var hi := n;
    while hi > 0
      invariant 0 <= hi <= n
      invariant CacheValid(cache, V, d, tol, newV, ends)
      invariant forall k :: k in cache0 ==> k in cache && cache[k] == cache0[k]
      invariant newV0 <= newV
      invariant Covers(ring, kr, cache, hi, n)
      invariant faceW == ring[..hi] + Expand(ring, kr, cache, hi, n)
      invariant pos == kr[..hi] + ExpandPos(kr, hi, n)
      invariant |faceW| == |pos|
      invariant forall j :: 0 <= j < |pos| && pos[j] ==> KeptId(faceW[j], keep, |newV|)
      invariant ends0 <= ends && forall k :: |ends0| <= k < |ends| ==> EdgeOf(ring, ends[k])
    {
      faceW, pos, cache, newV, ends :=
        WalkSlot(V, d, tol, ring, kr, cache0, newV0, ends0, hi - 1, faceW, pos, cache, newV, ends);
      hi := hi - 1;
    }
  }

  /**
   * One slot iv of the walk of lines 205-240: an intersection point
   * inserted before it when the slot before differs in keep flag, nothing
   * otherwise.
   */
  method WalkSlot(V: seq<Vec3>, d: seq<real>, tol: real, ring: seq<int>, kr: seq<bool>,
                  ghost cache0: EdgeCache, ghost newV0: seq<Vec3>, ghost ends0: seq<(int, int)>, iv: int,
                  faceW0: seq<int>, pos0: seq<bool>, cache1: EdgeCache, newV1: seq<Vec3>, ghost ends1: seq<(int, int)>)
    returns (faceW: seq<int>, pos: seq<bool>, cache: EdgeCache, newV: seq<Vec3>, ghost ends: seq<(int, int)>)
    requires |d| == |V| && InRange(ring, |V|) && kr == At(KeepMask(d, tol), ring) && 0 <= iv < |ring|
    requires CacheValid(cache1, V, d, tol, newV1, ends1)
    requires forall k :: k in cache0 ==> k in cache1 && cache1[k] == cache0[k]
    requires newV0 <= newV1
    requires Covers(ring, kr, cache1, iv + 1, |ring|)
    requires faceW0 == ring[..iv + 1] + Expand(ring, kr, cache1, iv + 1, |ring|)
    requires pos0 == kr[..iv + 1] + ExpandPos(kr, iv + 1, |ring|)
    requires |faceW0| == |pos0|
    requires forall j :: 0 <= j < |pos0| && pos0[j] ==> KeptId(faceW0[j], KeepMask(d, tol), |newV1|)
    requires ends0 <= ends1 && forall k :: |ends0| <= k < |ends1| ==> EdgeOf(ring, ends1[k])
    ensures CacheValid(cache, V, d, tol, newV, ends)
    ensures forall k :: k in cache0 ==> k in cache && cache[k] == cache0[k]
    ensures newV0 <= newV
    ensures Covers(ring, kr, cache, iv, |ring|)
    ensures faceW == ring[..iv] + Expand(ring, kr, cache, iv, |ring|)
    ensures pos == kr[..iv] + ExpandPos(kr, iv, |ring|)
    ensures |faceW| == |pos|
    ensures forall j :: 0 <= j < |pos| && pos[j] ==> KeptId(faceW[j], KeepMask(d, tol), |newV|)
    ensures ends0 <= ends && forall k :: |ends0| <= k < |ends| ==> EdgeOf(ring, ends[k])
  {
    var p := if iv == 0 then |pos0| - 1 else iv - 1;
    WalkSlots(ring, kr, cache1, iv, faceW0, pos0, p);
    if pos0[p] != pos0[iv] {
      assert Crossing(kr, iv);
      faceW, pos, cache, newV, ends := InsertCrossing(V, d, tol, ring, kr, cache1, newV1, ends1, iv, faceW0, pos0);
      EdgesOfRing(ring, ends0, ends1, ends, iv);
    } else {
      faceW, pos, cache, newV, ends := faceW0, pos0, cache1, newV1, ends1;
      WalkStepPlain(ring, kr, cache, iv, faceW, pos);
    }
  }

  /**
   * Lines 205-240 at slot iv of the walk, where the slot before differs in
   * keep flag: the intersection point of that edge is inserted before iv.
   */
  method InsertCrossing(V: seq<Vec3>, d: seq<real>, tol: real, ring: seq<int>, kr: seq<bool>,
                        cache0: EdgeCache, newV0: seq<Vec3>, ghost ends0: seq<(int, int)>,
                        iv: int, faceW0: seq<int>, pos0: seq<bool>)
    returns (faceW: seq<int>, pos: seq<bool>, cache: EdgeCache, newV: seq<Vec3>, ghost ends: seq<(int, int)>)
    requires |d| == |V| && InRange(ring, |V|) && kr == At(KeepMask(d, tol), ring) && 0 <= iv < |ring|
    requires CacheValid(cache0, V, d, tol, newV0, ends0)
    requires Covers(ring, kr, cache0, iv + 1, |ring|) && Crossing(kr, iv)
    requires faceW0 == ring[..iv + 1] + Expand(ring, kr, cache0, iv + 1, |ring|)
    requires pos0 == kr[..iv + 1] + ExpandPos(kr, iv + 1, |ring|)
    requires |faceW0| == |pos0|
    requires forall j :: 0 <= j < |pos0| && pos0[j] ==> KeptId(faceW0[j], KeepMask(d, tol), |newV0|)
    ensures CacheValid(cache, V, d, tol, newV, ends)
    ensures forall k :: k in cache0 ==> k in cache && cache[k] == cache0[k]
    ensures newV0 <= newV
    ensures Covers(ring, kr, cache, iv, |ring|)
    ensures faceW == ring[..iv] + Expand(ring, kr, cache, iv, |ring|)
    ensures pos == kr[..iv] + ExpandPos(kr, iv, |ring|)
    ensures |faceW| == |pos|
    ensures forall j :: 0 <= j < |pos| && pos[j] ==> KeptId(faceW[j], KeepMask(d, tol), |newV|)
    ensures ends0 <= ends && forall k :: |ends0| <= k < |ends| ==> ends[k] == (ring[Prev(|ring|, iv)], ring[iv])
  {
    var n := |ring|;
    var a, b := ring[Prev(n, iv)], ring[iv];
    var q;
    q, cache, newV, ends := EdgePoint(V, d, tol, cache0, newV0, ends0, a, b);
    ExpandGrow(ring, kr, cache0, cache, iv + 1, n);
    assert |newV0| <= |newV|;
    WalkStepCrossing(ring, kr, cache, iv, faceW0, pos0, q);
    InsertKept(faceW0, pos0, iv, q, KeepMask(d, tol), |newV|);
    faceW := faceW0[..iv] + [q] + faceW0[iv..];
    pos := pos0[..iv] + [true] + pos0[iv..];
  }

  /**
   * A face to clip with kept and dropped vertices, once walked: its rows
   * can be formed unless its kept corners are opposite, and its boundary
   * edge is always found, since its ring holds a new point per crossing.
   */
  lemma ClippedFaceFacts(V: seq<Vec3>, d: seq<real>, tol: real, ring: seq<int>, faceW: seq<int>, pos: seq<bool>,
                         cache: EdgeCache, newV: seq<Vec3>, ends: seq<(int, int)>)
    requires |d| == |V| && (|ring| == 3 || |ring| == 4) && InRange(ring, |V|)
    requires CacheValid(cache, V, d, tol, newV, ends)
    requires Mixed(At(KeepMask(d, tol), ring))
    requires Covers(ring, At(KeepMask(d, tol), ring), cache, 0, |ring|)
    requires faceW == Expand(ring, At(KeepMask(d, tol), ring), cache, 0, |ring|)
    requires pos == ExpandPos(At(KeepMask(d, tol), ring), 0, |ring|)
    ensures |faceW| == |pos|
    ensures ClipRow(faceW, pos).Ok? <==> !Opposite(At(KeepMask(d, tol), ring))
    ensures ClipRow(faceW, pos).Err? ==> ClipRow(faceW, pos).error == ShapeMismatch
    ensures BoundaryEdge(Filter(faceW, pos), NewMarks(Filter(faceW, pos), |V|)).Ok?
  {
    var kr := At(KeepMask(d, tol), ring);
    var n := |ring|;
    ClippedRingRows(ring, kr, cache);
    forall k | k in cache
      ensures cache[k] >= |V|
    {
      var j := CacheOfLookup(|V|, ends, k);
    }
    ExpandNewMarks(ring, kr, cache, 0, n, |V|);
    MixedCrossesTwice(kr);
    assert CrossMask(kr)[0..n] == CrossMask(kr);
    BoundaryEdgeFound(Filter(faceW, pos), NewMarks(Filter(faceW, pos), |V|));
  }

  /** The cache holds every edge of face f's ring that crosses the plane. */
  predicate FaceCovered(d: seq<real>, tol: real, f: seq<int>, cache: EdgeCache)
    requires RowIn(f, |d|)
  {
    Covers(Ring(f), FaceMarks(KeepMask(d, tol), f), cache, 0, FaceSize(f))
  }

  /**
   * Lines 199-243 for face f: `face_w`, its ring with each crossing edge's
   * intersection point inserted before the slot the edge leads into, and
   * `pos`, the keep flags of its entries.
   */
  function Expanded(d: seq<real>, tol: real, f: seq<int>, cache: EdgeCache): (w: (seq<int>, seq<bool>))
    requires RowIn(f, |d|) && FaceCovered(d, tol, f, cache)
    ensures |w.0| == |w.1|
  {
    var ring, kr := Ring(f), FaceMarks(KeepMask(d, tol), f);
    ExpandLength(ring, kr, cache, 0, |ring|);
    (Expand(ring, kr, cache, 0, |ring|), ExpandPos(kr, 0, |ring|))
  }

  /** Lines 255-274 for face f: its new row and a pentagon's second row, 1-based, or the error. */
  function FaceRows(d: seq<real>, tol: real, f: seq<int>, cache: EdgeCache): Result<Rows, ClipError>
    requires RowIn(f, |d|) && FaceCovered(d, tol, f, cache)
  {
    var w := Expanded(d, tol, f, cache);
    match ClipRow(w.0, w.1)
    case Ok(rows) =>
      Ok(Rows(OneBased(rows.row), if rows.extra.Some? then Some(OneBased(rows.extra.value)) else None))
    case Err(e) => Err(e)
  }

  /** Lines 245-253 for face f: its boundary edge, the new points being the ids from nv on. */
  function FaceBoundaryEdge(nv: int, d: seq<real>, tol: real, f: seq<int>, cache: EdgeCache): Result<Option<(int, int)>, ClipError>
    requires RowIn(f, |d|) && FaceCovered(d, tol, f, cache)
  {
    var w := Expanded(d, tol, f, cache);
    var c := Filter(w.0, w.1);
    BoundaryEdge(c, NewMarks(c, nv))
  }

  /** A larger cache still covers face f and expands it the same way, so its rows and edge stay. */
  lemma ExpandedGrow(d: seq<real>, tol: real, f: seq<int>, c: EdgeCache, c': EdgeCache)
    requires RowIn(f, |d|) && FaceCovered(d, tol, f, c)
    requires forall k :: k in c ==> k in c' && c'[k] == c[k]
    ensures FaceCovered(d, tol, f, c') && Expanded(d, tol, f, c') == Expanded(d, tol, f, c)
  {
    ExpandGrow(Ring(f), FaceMarks(KeepMask(d, tol), f), c, c', 0, FaceSize(f));
  }

  /**
   * Lines 187-274: one face to clip. Its intersection points are put in its
   * ring (fetched from the cache or appended to newV), it gives its boundary
   * edge when polygons are wanted, and its kept entries become its new row
   * (1-based) and, for a pentagon, a second row. With absTol >= 0 it fails
   * exactly when its kept corners are opposite, and then only with a shape
   * mismatch.
   */
  method ClipFace(V: seq<Vec3>, d: seq<real>, tol: real, f: seq<int>, getPolygon: bool,
                  cache0: EdgeCache, newV0: seq<Vec3>, ghost ends0: seq<(int, int)>)
    returns (r: Result<Rows, ClipError>, edge: Option<(int, int)>,
             cache: EdgeCache, newV: seq<Vec3>, ghost ends: seq<(int, int)>)
    requires |d| == |V| && RowIn(f, |V|) && ToClipFace(f, d, tol)
    requires CacheValid(cache0, V, d, tol, newV0, ends0)
    ensures CacheValid(cache, V, d, tol, newV, ends) && newV0 <= newV
    ensures !getPolygon ==> edge.None?
    ensures edge.Some? ==> 0 <= edge.value.0 < |V| + |newV|
    ensures r.Ok? ==> KeptRow(r.value.row, KeepMask(d, tol), |newV|)
    ensures r.Ok? && r.value.extra.Some? ==> KeptRow(r.value.extra.value, KeepMask(d, tol), |newV|)
    ensures tol >= 0.0 ==> (r.Ok? <==> !Opposite(FaceMarks(KeepMask(d, tol), f)))
    ensures tol >= 0.0 && r.Err? ==> r.error == ShapeMismatch
    ensures forall k :: k in cache0 ==> k in cache && cache[k] == cache0[k]
    ensures ends0 <= ends && forall k :: |ends0| <= k < |ends| ==> EdgeOf(Ring(f), ends[k])
    ensures FaceCovered(d, tol, f, cache)
    ensures var found := FaceBoundaryEdge(|V|, d, tol, f, cache);
      if getPolygon && found.Err? then r == Err(found.error) && edge.None?
      else r == FaceRows(d, tol, f, cache) && edge == (if getPolygon then found.value else None)
  {
    var keep := KeepMask(d, tol);
    var ring := Ring(f);
    var faceW, pos;
    faceW, pos, cache, newV, ends := InsertIntersections(V, d, tol, ring, cache0, newV0, ends0);
    ClipRowWithin(ring, At(keep, ring), cache);
    if tol >= 0.0 {
      ToClipMixed(f, d, tol);
      ClippedFaceFacts(V, d, tol, ring, faceW, pos, cache, newV, ends);
    }
    edge := None;
    if getPolygon {
      var clipped := Filter(faceW, pos);
      var found := BoundaryEdge(clipped, NewMarks(clipped, |V|));
      if found.Ok? && found.value.Some? {
        FilteredKept(faceW, pos, keep, |newV|);
        EdgeKept(clipped, NewMarks(clipped, |V|), keep, |newV|);
      }
      if found.Err? {
        return Err(found.error), edge, cache, newV, ends;
      }
      edge := found.value;
    }
    var rows := ClipRow(faceW, pos);
    if rows.Err? {
      return Err(rows.error), edge, cache, newV, ends;
    }
    RowsKept(rows.value, faceW, pos, keep, |newV|);
    var extra := if rows.value.extra.Some? then Some(OneBased(rows.value.extra.value)) else None;
    r := Ok(Rows(OneBased(rows.value.row), extra));
  }

  /**
   * The state of the walk over the faces after its first i rows: rows not
   * to clip are untouched, clipped rows name kept vertices only, and with
   * absTol >= 0 none of the clipped faces had opposite kept corners.
   */
  ghost predicate Progress(Fs: seq<seq<int>>, F0: seq<seq<int>>, clip: seq<bool>, i: int,
                           keep: seq<bool>, nNew: int, tol: real)
  {
    |Fs| == |F0| == |clip| && 0 <= i <= |Fs| &&
    (forall j :: 0 <= j < |F0| && clip[j] ==> RowIn(F0[j], |keep|)) &&
    (forall j :: i <= j < |Fs| ==> Fs[j] == F0[j]) &&
    (forall j :: 0 <= j < i && !clip[j] ==> Fs[j] == F0[j]) &&
    (forall j :: 0 <= j < i && clip[j] ==> KeptRow(Fs[j], keep, nNew)) &&
    (tol >= 0.0 ==> forall j :: 0 <= j < i && clip[j] ==> !Opposite(FaceMarks(keep, F0[j])))
  }

  /** Every key of a boundary map is below n. */
  predicate KeysBelow(be: map<int, int>, n: int)
  {
    forall a :: a in be ==> 0 <= a < n
  }

  /** Recording the boundary edge found for a face keeps every key an id. */
  lemma EdgeKeys(be: map<int, int>, n: int, n': int, edge: Option<(int, int)>)
    requires KeysBelow(be, n) && n <= n' && (edge.Some? ==> 0 <= edge.value.0 < n')
    ensures KeysBelow(if edge.Some? then be[edge.value.0 := edge.value.1] else be, n')
  {
  }

  /** Every row of rs names kept vertices only. */
  ghost predicate AllKept(rs: seq<seq<int>>, keep: seq<bool>, nNew: int)
  {
    forall r :: r in rs ==> KeptRow(r, keep, nNew)
  }

  /** Passing over a face that is not to be clipped. */
  lemma ProgressSkip(Fs: seq<seq<int>>, F0: seq<seq<int>>, clip: seq<bool>, i: int, keep: seq<bool>, nNew: int, tol: real)
    requires Progress(Fs, F0, clip, i, keep, nNew, tol) && i < |Fs| && !clip[i]
    ensures Progress(Fs, F0, clip, i + 1, keep, nNew, tol)
  {
  }

  /** Rewriting a clipped face's row, after the new points grew from nNew to nNew'. */
  lemma ProgressClip(Fs: seq<seq<int>>, F0: seq<seq<int>>, clip: seq<bool>, i: int, keep: seq<bool>,
                     nNew: int, nNew': int, tol: real, row: seq<int>)
    requires Progress(Fs, F0, clip, i, keep, nNew, tol) && i < |Fs| && clip[i] && nNew <= nNew'
    requires KeptRow(row, keep, nNew')
    requires tol >= 0.0 ==> !Opposite(FaceMarks(keep, F0[i]))
    ensures Progress(Fs[i := row], F0, clip, i + 1, keep, nNew', tol)
  {
    forall j | 0 <= j < i && clip[j]
      ensures KeptRow(Fs[j], keep, nNew')
    {
      KeptRowGrow(Fs[j], keep, nNew, nNew');
    }
  }

  /** Kept rows stay kept as the new points grow, and one more may join them. */
  lemma AllKeptGrow(rs: seq<seq<int>>, keep: seq<bool>, nNew: int, nNew': int, extra: Option<seq<int>>)
    requires AllKept(rs, keep, nNew) && nNew <= nNew'
    requires extra.Some? ==> KeptRow(extra.value, keep, nNew')
    ensures AllKept(rs + (if extra.Some? then [extra.value] else []), keep, nNew')
  {
    forall r | r in rs
      ensures KeptRow(r, keep, nNew')
    {
      KeptRowGrow(r, keep, nNew, nNew');
    }
  }

  /** The edge e is an edge of one of the first i faces to clip. */
  ghost predicate EdgeFrom(F0: seq<seq<int>>, clip: seq<bool>, i: int, e: (int, int))
    requires |clip| == |F0| && 0 <= i <= |F0|
  {
    exists j :: 0 <= j < i && clip[j] && IsRow(F0[j]) && EdgeOf(Ring(F0[j]), e)
  }

  /** Every recorded crossing edge is an edge of one of the first i faces to clip. */
  ghost predicate EndsFrom(F0: seq<seq<int>>, clip: seq<bool>, i: int, ends: seq<(int, int)>)
    requires |clip| == |F0| && 0 <= i <= |F0|
  {
    forall k :: 0 <= k < |ends| ==> EdgeFrom(F0, clip, i, ends[k])
  }

  /** A larger cache still covers face f and gives it the same rows and boundary edge. */
  lemma FaceGrow(d: seq<real>, tol: real, f: seq<int>, c: EdgeCache, c': EdgeCache, nv: int)
    requires RowIn(f, |d|) && FaceCovered(d, tol, f, c)
    requires forall k :: k in c ==> k in c' && c'[k] == c[k]
    ensures FaceCovered(d, tol, f, c')
    ensures FaceRows(d, tol, f, c') == FaceRows(d, tol, f, c)
    ensures FaceBoundaryEdge(nv, d, tol, f, c') == FaceBoundaryEdge(nv, d, tol, f, c)
  {
    ExpandedGrow(d, tol, f, c, c');
  }

  /**
   * Face j after the walk: row j of Fs is its new row when it was clipped,
   * X[j] its second row (a pentagon's) if any, and nothing for a face not
   * clipped.
   */
  ghost predicate RowWritten(Fs: seq<seq<int>>, F0: seq<seq<int>>, clip: seq<bool>, d: seq<real>, tol: real,
                             cache: EdgeCache, X: seq<Option<seq<int>>>, j: int)
    requires |Fs| == |F0| == |clip| && 0 <= j < |F0| && j < |X|
  {
    if clip[j] then
      RowIn(F0[j], |d|) && FaceCovered(d, tol, F0[j], cache) && FaceRows(d, tol, F0[j], cache) == Ok(Rows(Fs[j], X[j]))
    else X[j].None?
  }

  /** RowWritten for each of the first i faces. */
  ghost predicate Written(Fs: seq<seq<int>>, F0: seq<seq<int>>, clip: seq<bool>, d: seq<real>, tol: real,
                          cache: EdgeCache, X: seq<Option<seq<int>>>, i: int)
    requires |clip| == |F0| && 0 <= i <= |F0|
  {
    |Fs| == |F0| && |X| == i && forall j :: 0 <= j < i ==> RowWritten(Fs, F0, clip, d, tol, cache, X, j)
  }

  /** Face j after the walk: E[j] is its boundary edge when it was clipped, nothing otherwise. */
  ghost predicate EdgeWritten(F0: seq<seq<int>>, clip: seq<bool>, d: seq<real>, tol: real, cache: EdgeCache, nv: int,
                              E: seq<Option<(int, int)>>, j: int)
    requires |clip| == |F0| && 0 <= j < |F0| && j < |E|
  {
    if clip[j] then
      RowIn(F0[j], |d|) && FaceCovered(d, tol, F0[j], cache) && FaceBoundaryEdge(nv, d, tol, F0[j], cache) == Ok(E[j])
    else E[j].None?
  }

  /** EdgeWritten for each of the first i faces. */
  ghost predicate EdgesWritten(F0: seq<seq<int>>, clip: seq<bool>, d: seq<real>, tol: real, cache: EdgeCache, nv: int,
                               E: seq<Option<(int, int)>>, i: int)
    requires |clip| == |F0| && 0 <= i <= |F0|
  {
    |E| == i && forall j :: 0 <= j < i ==> EdgeWritten(F0, clip, d, tol, cache, nv, E, j)
  }

  /** Line 274: the rows present in X, in order (`newF`). */
  function Somes(X: seq<Option<seq<int>>>): seq<seq<int>>
  {
    if |X| == 0 then []
    else Somes(X[..|X| - 1]) + (if X[|X| - 1].Some? then [X[|X| - 1].value] else [])
  }

  /** Lines 252-253: the entries present in E written into be0, in order. */
  function WriteEdges(be0: map<int, int>, E: seq<Option<(int, int)>>): map<int, int>
  {
    if |E| == 0 then be0
    else
      var be := WriteEdges(be0, E[..|E| - 1]);
      if E[|E| - 1].Some? then be[E[|E| - 1].value.0 := E[|E| - 1].value.1] else be
  }

  lemma SomesSnoc(X: seq<Option<seq<int>>>, x: Option<seq<int>>)
    ensures Somes(X + [x]) == Somes(X) + (if x.Some? then [x.value] else [])
  {
    assert (X + [x])[..|X|] == X;
  }

  lemma WriteEdgesSnoc(be0: map<int, int>, E: seq<Option<(int, int)>>, e: Option<(int, int)>)
    ensures WriteEdges(be0, E + [e]) ==
      if e.Some? then WriteEdges(be0, E)[e.value.0 := e.value.1] else WriteEdges(be0, E)
  {
    assert (E + [e])[..|E|] == E;
  }

  /** Growing the cache keeps the written rows and edges. */
  lemma WrittenGrow(Fs: seq<seq<int>>, F0: seq<seq<int>>, clip: seq<bool>, d: seq<real>, tol: real,
                    c: EdgeCache, c': EdgeCache, X: seq<Option<seq<int>>>, nv: int, E: seq<Option<(int, int)>>,
                    getPolygon: bool, i: int)
    requires |clip| == |F0| && 0 <= i <= |F0| && Written(Fs, F0, clip, d, tol, c, X, i)
    requires getPolygon ==> EdgesWritten(F0, clip, d, tol, c, nv, E, i)
    requires forall k :: k in c ==> k in c' && c'[k] == c[k]
    ensures Written(Fs, F0, clip, d, tol, c', X, i)
    ensures getPolygon ==> EdgesWritten(F0, clip, d, tol, c', nv, E, i)
  {
    forall j | 0 <= j < i
      ensures RowWritten(Fs, F0, clip, d, tol, c', X, j)
      ensures getPolygon ==> EdgeWritten(F0, clip, d, tol, c', nv, E, j)
    {
      assert RowWritten(Fs, F0, clip, d, tol, c, X, j);
      if getPolygon {
        assert EdgeWritten(F0, clip, d, tol, c, nv, E, j);
      }
      if clip[j] {
        FaceGrow(d, tol, F0[j], c, c', nv);
      }
    }
  }

  /** The edges recorded while clipping face i are edges of face i. */
  lemma EndsFromClip(F0: seq<seq<int>>, clip: seq<bool>, i: int, ends: seq<(int, int)>, ends': seq<(int, int)>)
    requires |clip| == |F0| && 0 <= i < |F0| && clip[i] && IsRow(F0[i])
    requires EndsFrom(F0, clip, i, ends)
    requires ends <= ends' && forall k :: |ends| <= k < |ends'| ==> EdgeOf(Ring(F0[i]), ends'[k])
    ensures EndsFrom(F0, clip, i + 1, ends')
  {
    forall k | 0 <= k < |ends'|
      ensures EdgeFrom(F0, clip, i + 1, ends'[k])
    {
      if k < |ends| {
        assert ends'[k] == ends[k];
        assert EdgeFrom(F0, clip, i, ends[k]);
      var j :| 0 <= j < i && clip[j] && IsRow(F0[j]) && EdgeOf(Ring(F0[j]), ends[k]);
      }
    }
  }

  /**
   * The state of the walk over the faces after its first i rows: what
   * Progress says, the cache with its points, the new rows and the
   * boundary dictionary as lines 186-274 build them, and every recorded
   * crossing edge an edge of a face clipped so far.
   */
  ghost predicate FacesWalked(V: seq<Vec3>, d: seq<real>, tol: real, F0: seq<seq<int>>, clip: seq<bool>,
                              getPolygon: bool, be0: map<int, int>, i: int, Fs: seq<seq<int>>, cache: EdgeCache,
                              newV: seq<Vec3>, ends: seq<(int, int)>, newF: seq<seq<int>>, be: map<int, int>,
                              X: seq<Option<seq<int>>>, E: seq<Option<(int, int)>>)
  {
    |d| == |V| && Progress(Fs, F0, clip, i, KeepMask(d, tol), |newV|, tol) &&
    AllKept(newF, KeepMask(d, tol), |newV|) &&
    CacheValid(cache, V, d, tol, newV, ends) && KeysBelow(be, |V| + |newV|) &&
    Written(Fs, F0, clip, d, tol, cache, X, i) && newF == Somes(X) &&
    (!getPolygon ==> be == be0) &&
    (getPolygon ==> EdgesWritten(F0, clip, d, tol, cache, |V|, E, i) && be == WriteEdges(be0, E)) &&
    EndsFrom(F0, clip, i, ends)
  }

  /** Passing over a face that is not to be clipped. */
  lemma FacesSkip(V: seq<Vec3>, d: seq<real>, tol: real, F0: seq<seq<int>>, clip: seq<bool>,
                  getPolygon: bool, be0: map<int, int>, i: int, Fs: seq<seq<int>>, cache: EdgeCache,
                  newV: seq<Vec3>, ends: seq<(int, int)>, newF: seq<seq<int>>, be: map<int, int>,
                  X: seq<Option<seq<int>>>, E: seq<Option<(int, int)>>)
    requires FacesWalked(V, d, tol, F0, clip, getPolygon, be0, i, Fs, cache, newV, ends, newF, be, X, E)
    requires i < |F0| && !clip[i]
    ensures FacesWalked(V, d, tol, F0, clip, getPolygon, be0, i + 1, Fs, cache, newV, ends, newF, be,
                        X + [None], if getPolygon then E + [None] else E)
  {
    ProgressSkip(Fs, F0, clip, i, KeepMask(d, tol), |newV|, tol);
    var X', E' := X + [None], E + [None];
    assert X'[..i] == X;
    if getPolygon {
      assert E'[..i] == E;
    }
    forall j | 0 <= j < i + 1
      ensures RowWritten(Fs, F0, clip, d, tol, cache, X', j)
      ensures getPolygon ==> EdgeWritten(F0, clip, d, tol, cache, |V|, E', j)
    {
      if j < i {
        assert RowWritten(Fs, F0, clip, d, tol, cache, X, j) && X'[j] == X[j];
        if getPolygon {
          assert EdgeWritten(F0, clip, d, tol, cache, |V|, E, j) && E'[j] == E[j];
        }
      }
    }
  }

  /** Writing face i's rows, and its edge when polygons are wanted, under the grown cache. */
  lemma WrittenClip(Fs: seq<seq<int>>, F0: seq<seq<int>>, clip: seq<bool>, d: seq<real>, tol: real,
                    c: EdgeCache, X: seq<Option<seq<int>>>, nv: int, E: seq<Option<(int, int)>>,
                    getPolygon: bool, i: int, rows: Rows, edge: Option<(int, int)>)
    requires |clip| == |F0| && 0 <= i < |F0| && clip[i] && Written(Fs, F0, clip, d, tol, c, X, i)
    requires getPolygon ==> EdgesWritten(F0, clip, d, tol, c, nv, E, i)
    requires RowIn(F0[i], |d|) && FaceCovered(d, tol, F0[i], c) && FaceRows(d, tol, F0[i], c) == Ok(rows)
    requires getPolygon ==> FaceBoundaryEdge(nv, d, tol, F0[i], c) == Ok(edge)
    ensures Written(Fs[i := rows.row], F0, clip, d, tol, c, X + [rows.extra], i + 1)
    ensures getPolygon ==> EdgesWritten(F0, clip, d, tol, c, nv, E + [edge], i + 1)
  {
    var Fs', X', E' := Fs[i := rows.row], X + [rows.extra], E + [edge];
    forall j | 0 <= j < i + 1
      ensures RowWritten(Fs', F0, clip, d, tol, c, X', j)
      ensures getPolygon ==> EdgeWritten(F0, clip, d, tol, c, nv, E', j)
    {
      if j < i {
        assert RowWritten(Fs, F0, clip, d, tol, c, X, j);
        assert Fs'[j] == Fs[j] && X'[j] == X[j];
        if getPolygon {
          assert EdgeWritten(F0, clip, d, tol, c, nv, E, j);
          assert E'[j] == E[j];
        }
      }
    }
  }

  /**
   * Lines 187-274 for face i of the walk, one to clip: ClipFace, then its
   * edge written into the boundary dictionary and its rows recorded. On a
   * failure the walk stops with the error (its edge already written).
   */
  method ClipStep(V: seq<Vec3>, d: seq<real>, tol: real, ghost F0: seq<seq<int>>, clip: seq<bool>,
                  getPolygon: bool, ghost be0: map<int, int>, i: int, f: seq<int>, ghost Fs: seq<seq<int>>,
                  cache: EdgeCache, newV: seq<Vec3>, ghost ends: seq<(int, int)>, newF: seq<seq<int>>,
                  be: map<int, int>, ghost X: seq<Option<seq<int>>>, ghost E: seq<Option<(int, int)>>)
    returns (err: Option<ClipError>, row: seq<int>, cache': EdgeCache, newV': seq<Vec3>, ghost ends': seq<(int, int)>,
             newF': seq<seq<int>>, be': map<int, int>, ghost X': seq<Option<seq<int>>>, ghost E': seq<Option<(int, int)>>)
    requires FacesWalked(V, d, tol, F0, clip, getPolygon, be0, i, Fs, cache, newV, ends, newF, be, X, E)
    requires 0 <= i < |F0| && clip[i] && f == F0[i] && RowIn(f, |V|) && ToClipFace(f, d, tol)
    ensures err.None? ==>
      FacesWalked(V, d, tol, F0, clip, getPolygon, be0, i + 1, Fs[i := row], cache', newV', ends', newF', be', X', E')
    ensures err.Some? ==>
      EdgePoints(V, d, tol, newV', ends') && DistinctEdges(ends') && EndsFrom(F0, clip, |F0|, ends') &&
      KeysBelow(be', |V| + |newV'|) && (!getPolygon ==> be' == be0) &&
      (forall j :: 0 <= j < |F0| && !clip[j] ==> Fs[j] == F0[j])
    ensures tol >= 0.0 ==> (err.None? <==> !Opposite(FaceMarks(KeepMask(d, tol), f)))
    ensures tol >= 0.0 && err.Some? ==> err.value == ShapeMismatch
  {
    var keep := KeepMask(d, tol);
    var rows, edge;
    rows, edge, cache', newV', ends' := ClipFace(V, d, tol, f, getPolygon, cache, newV, ends);
    EdgeKeys(be, |V| + |newV|, |V| + |newV'|, edge);
    be' := if edge.Some? then be[edge.value.0 := edge.value.1] else be;
    EndsFromClip(F0, clip, i, ends, ends');
    if rows.Err? {
      EndsFromWiden(F0, clip, i + 1, |F0|, ends');
      return Some(rows.error), [], cache', newV', ends', newF, be', X, E;
    }
    AllKeptGrow(newF, keep, |newV|, |newV'|, rows.value.extra);
    ProgressClip(Fs, F0, clip, i, keep, |newV|, |newV'|, tol, rows.value.row);
    WrittenGrow(Fs, F0, clip, d, tol, cache, cache', X, |V|, E, getPolygon, i);
    WrittenClip(Fs, F0, clip, d, tol, cache', X, |V|, E, getPolygon, i, rows.value, edge);
    err, row := None, rows.value.row;
    newF' := newF + (if rows.value.extra.Some? then [rows.value.extra.value] else []);
    X', E' := X + [rows.value.extra], if getPolygon then E + [edge] else E;
    SomesSnoc(X, rows.value.extra);
    WriteEdgesSnoc(be0, E, edge);
  }

  /** The walk's state before the first face. */
  lemma FacesStart(V: seq<Vec3>, d: seq<real>, tol: real, F0: seq<seq<int>>, clip: seq<bool>,
                   getPolygon: bool, be0: map<int, int>)
    requires |d| == |V| && |clip| == |F0|
    requires forall j :: 0 <= j < |F0| && clip[j] ==> RowIn(F0[j], |V|)
    requires KeysBelow(be0, |V|)
    ensures FacesWalked(V, d, tol, F0, clip, getPolygon, be0, 0, F0, map[], [], [], [], be0, [], [])
  {
  }

  /** The walk's state after the last face gives what the walk promises. */
  lemma FacesDone(V: seq<Vec3>, d: seq<real>, tol: real, F0: seq<seq<int>>, clip: seq<bool>,
                  getPolygon: bool, be0: map<int, int>, Fs: seq<seq<int>>, cache: EdgeCache,
                  newV: seq<Vec3>, ends: seq<(int, int)>, newF: seq<seq<int>>, be: map<int, int>,
                  X: seq<Option<seq<int>>>, E: seq<Option<(int, int)>>)
    requires FacesWalked(V, d, tol, F0, clip, getPolygon, be0, |F0|, Fs, cache, newV, ends, newF, be, X, E)
    ensures |d| == |V| && |Fs| == |F0| == |clip|
    ensures EdgePoints(V, d, tol, newV, ends) && DistinctEdges(ends) && EndsFrom(F0, clip, |F0|, ends)
    ensures cache == CacheOf(|V|, ends)
    ensures forall j :: 0 <= j < |F0| && !clip[j] ==> Fs[j] == F0[j]
    ensures forall j :: 0 <= j < |F0| && clip[j] ==> KeptRow(Fs[j], KeepMask(d, tol), |newV|)
    ensures AllKept(newF, KeepMask(d, tol), |newV|)
    ensures Written(Fs, F0, clip, d, tol, cache, X, |F0|) && newF == Somes(X)
    ensures getPolygon ==> EdgesWritten(F0, clip, d, tol, cache, |V|, E, |F0|) && be == WriteEdges(be0, E)
    ensures tol >= 0.0 ==> forall j :: 0 <= j < |F0| && clip[j] ==> !Opposite(FaceMarks(KeepMask(d, tol), F0[j]))
    ensures !getPolygon ==> be == be0
    ensures KeysBelow(be, |V| + |newV|)
  {
  }

  /** A walk stopped by a face's failure at i still accounts for every recorded edge. */
  lemma EndsFromWiden(F0: seq<seq<int>>, clip: seq<bool>, i: int, n: int, ends: seq<(int, int)>)
    requires |clip| == |F0| && 0 <= i <= n <= |F0| && EndsFrom(F0, clip, i, ends)
    ensures EndsFrom(F0, clip, n, ends)
  {
    forall k | 0 <= k < |ends|
      ensures EdgeFrom(F0, clip, n, ends[k])
    {
      assert EdgeFrom(F0, clip, i, ends[k]);
      var j :| 0 <= j < i && clip[j] && IsRow(F0[j]) && EdgeOf(Ring(F0[j]), ends[k]);
    }
  }

  /** One face of the walk: clipped and its row rewritten in place, or passed over. */
  method WalkFace(V: seq<Vec3>, d: seq<real>, tol: real, F: array<seq<int>>, ghost F0: seq<seq<int>>, clip: seq<bool>,
                  getPolygon: bool, ghost be0: map<int, int>, i: int, ghost Fs: seq<seq<int>>,
                  cache: EdgeCache, newV: seq<Vec3>, ghost ends: seq<(int, int)>, newF: seq<seq<int>>,
                  be: map<int, int>, ghost X: seq<Option<seq<int>>>, ghost E: seq<Option<(int, int)>>)
    returns (err: Option<ClipError>, cache': EdgeCache, newV': seq<Vec3>, ghost ends': seq<(int, int)>,
             newF': seq<seq<int>>, be': map<int, int>, ghost X': seq<Option<seq<int>>>, ghost E': seq<Option<(int, int)>>,
             ghost Fs': seq<seq<int>>)
    requires FacesWalked(V, d, tol, F0, clip, getPolygon, be0, i, Fs, cache, newV, ends, newF, be, X, E)
    requires 0 <= i < |F0| && F[..] == Fs
    requires forall j :: 0 <= j < |F0| && clip[j] ==> ToClipFace(F0[j], d, tol)
    modifies F
    ensures F[..] == Fs'
    ensures err.None? ==>
      FacesWalked(V, d, tol, F0, clip, getPolygon, be0, i + 1, Fs', cache', newV', ends', newF', be', X', E')
    ensures err.Some? ==>
      EdgePoints(V, d, tol, newV', ends') && DistinctEdges(ends') && EndsFrom(F0, clip, |F0|, ends') &&
      KeysBelow(be', |V| + |newV'|) && (!getPolygon ==> be' == be0) &&
      (forall j :: 0 <= j < |F0| && !clip[j] ==> Fs'[j] == F0[j])
    ensures tol >= 0.0 && err.Some? ==> clip[i] && Opposite(FaceMarks(KeepMask(d, tol), F0[i])) && err.value == ShapeMismatch
  {
    if clip[i] {
      var row;
      err, row, cache', newV', ends', newF', be', X', E' :=
        ClipStep(V, d, tol, F0, clip, getPolygon, be0, i, F[i], Fs, cache, newV, ends, newF, be, X, E);
      if err.Some? {
        Fs' := Fs;
        return;
      }
      F[i] := row;
      Fs' := Fs[i := row];
    } else {
      FacesSkip(V, d, tol, F0, clip, getPolygon, be0, i, Fs, cache, newV, ends, newF, be, X, E);
      err, cache', newV', ends', newF', be', Fs' := None, cache, newV, ends, newF, be, Fs;
      X', E' := X + [None], if getPolygon then E + [None] else E;
    }
  }

  /**
   * Lines 186-274: the walk over the faces to clip, in order, each row
   * rewritten in place and a pentagon's second half appended to newF. The
   * first face that fails stops the walk with its error, the rows before it
   * already rewritten. Without a failure, each clipped row and the second
   * rows X are the rows of the face's expanded ring under the final cache,
   * and the boundary dictionary is be0 with each clipped face's edge E
   * written in, in face order.
   */
  method ClipFaces(V: seq<Vec3>, d: seq<real>, tol: real, F: array<seq<int>>, ghost F0: seq<seq<int>>,
                   clip: seq<bool>, getPolygon: bool, be0: map<int, int>)
    returns (err: Option<ClipError>, newV: seq<Vec3>, newF: seq<seq<int>>, be: map<int, int>,
             ghost ends: seq<(int, int)>, ghost X: seq<Option<seq<int>>>, ghost E: seq<Option<(int, int)>>,
             ghost Fs: seq<seq<int>>)
    requires |d| == |V| && |clip| == F.Length && F[..] == F0
    requires forall j :: 0 <= j < |F0| && clip[j] ==> RowIn(F0[j], |V|) && ToClipFace(F0[j], d, tol)
    requires KeysBelow(be0, |V|)
    modifies F
    ensures F[..] == Fs && |Fs| == |F0|
    ensures EdgePoints(V, d, tol, newV, ends) && DistinctEdges(ends)
    ensures EndsFrom(F0, clip, |F0|, ends)
    ensures forall j :: 0 <= j < |F0| && !clip[j] ==> Fs[j] == F0[j]
    ensures err.None? ==> forall j :: 0 <= j < |F0| && clip[j] ==> KeptRow(Fs[j], KeepMask(d, tol), |newV|)
    ensures err.None? ==> AllKept(newF, KeepMask(d, tol), |newV|)
    ensures err.None? ==> Written(Fs, F0, clip, d, tol, CacheOf(|V|, ends), X, |F0|) && newF == Somes(X)
    ensures err.None? && getPolygon ==>
      EdgesWritten(F0, clip, d, tol, CacheOf(|V|, ends), |V|, E, |F0|) && be == WriteEdges(be0, E)
    ensures tol >= 0.0 ==>
      (err.None? <==> forall j :: 0 <= j < |F0| && clip[j] ==> !Opposite(FaceMarks(KeepMask(d, tol), F0[j])))
    ensures tol >= 0.0 && err.Some? ==> err.value == ShapeMismatch
    ensures !getPolygon ==> be == be0
    ensures KeysBelow(be, |V| + |newV|)
  {
    var cache: EdgeCache := map[];
    newV, newF, be, ends, X, E := [], [], be0, [], [], [];
    err := None;
    FacesStart(V, d, tol, F0, clip, getPolygon, be0);
    Fs := F0;
    var i := 0;
    while i < F.Length
      invariant 0 <= i <= F.Length && F[..] == Fs && err.None?
      invariant FacesWalked(V, d, tol, F0, clip, getPolygon, be0, i, Fs, cache, newV, ends, newF, be, X, E)
    {
      err, cache, newV, ends, newF, be, X, E, Fs :=
        WalkFace(V, d, tol, F, F0, clip, getPolygon, be0, i, Fs, cache, newV, ends, newF, be, X, E);
      if err.Some? {
        return;
      }
      i := i + 1;
    }
    FacesDone(V, d, tol, F0, clip, getPolygon, be0, Fs, cache, newV, ends, newF, be, X, E);
  }

  /** The new points lie on the plane: each cuts a crossing edge where the signed distance is zero. */
  lemma NewPointsOnPlane(V: seq<Vec3>, normal: Vec3, e: real, tol: real, newV: seq<Vec3>, ends: seq<(int, int)>)
    requires EdgePoints(V, Distances(V, normal, e), tol, newV, ends)
    ensures forall p :: p in newV ==> SignedDistance(normal, e, p) == 0.0
  {
    var d := Distances(V, normal, e);
    forall j | 0 <= j < |newV|
      ensures SignedDistance(normal, e, newV[j]) == 0.0
    {
      CutOnPlane(normal, e, V[ends[j].0], V[ends[j].1]);
    }
  }

  /**
   * Every row kept in the extended face list (lines 274, 279-280 and 289)
   * names kept vertices only: a fully kept row is untouched, a clipped row
   * was rewritten from kept entries, and the appended rows likewise.
   */
  lemma KeptFacesRows(F0: seq<seq<int>>, Fs: seq<seq<int>>, newF: seq<seq<int>>, d: seq<real>, tol: real, nNew: int)
    requires ValidFaces(F0, |d|) && |Fs| == |F0| && 0 <= nNew
    requires forall j :: 0 <= j < |F0| && !ToClipFace(F0[j], d, tol) ==> Fs[j] == F0[j]
    requires forall j :: 0 <= j < |F0| && ToClipFace(F0[j], d, tol) ==> KeptRow(Fs[j], KeepMask(d, tol), nNew)
    requires AllKept(newF, KeepMask(d, tol), nNew)
    ensures AllKept(Filter(Fs + newF, KeptFaces(F0, d, tol) + Trues(|newF|)), KeepMask(d, tol), nNew)
  {
    var keep := KeepMask(d, tol);
    var rows, mask := Fs + newF, KeptFaces(F0, d, tol) + Trues(|newF|);
    forall i | 0 <= i < |rows| && mask[i]
      ensures KeptRow(rows[i], keep, nNew)
    {
      if i < |Fs| && !ToClipFace(F0[i], d, tol) {
        FullyKeptRow(F0[i], keep, nNew);
      } else if i >= |Fs| {
        assert rows[i] in newF;
      }
    }
    var c := Filter(rows, mask);
    forall r | r in c
      ensures KeptRow(r, keep, nNew)
    {
      var k :| 0 <= k < |c| && c[k] == r;
      FilterFrom(rows, mask, k);
    }
  }

  /** Renumbered kept rows name vertices of the clipped mesh. */
  lemma RenumberedRows(rows: seq<seq<int>>, keep: seq<bool>, nNew: nat, Vs: seq<Vec3>)
    requires AllKept(rows, keep, nNew) && |Vs| == |keep| + nNew
    ensures var ids := NewIds(keep + Trues(nNew));
      RowsIn(rows, |ids|) && ValidFaces(RenumberRows(rows, ids), CountTrue(keep) + nNew)
  {
    var keepExt := keep + Trues(nNew);
    CountTrueAppend(keep, Trues(nNew));
    CountTrueFull(Trues(nNew));
    forall i | 0 <= i < |rows|
      ensures forall k :: 0 <= k < |rows[i]| ==> 1 <= rows[i][k] <= |keepExt| && keepExt[rows[i][k] - 1]
    {
      assert rows[i] in rows;
      forall k | 0 <= k < |rows[i]|
        ensures 1 <= rows[i][k] <= |keepExt| && keepExt[rows[i][k] - 1]
      {
        var x := rows[i][k] - 1;
        assert KeptId(x, keep, nNew);
        if |keep| <= x {
          assert keepExt[x] == Trues(nNew)[x - |keep|];
        }
      }
    }
    forall i | 0 <= i < |rows|
      ensures RowIn(RenumberRow(rows[i], NewIds(keepExt)), CountTrue(keep) + nNew)
    {
      assert rows[i] in rows;
      RenumberKeptRow(rows[i], keepExt, Vs);
    }
  }

  /** The clipped vertex list: the kept vertices in order, then the new points. */
  lemma ExtendedVertices(V: seq<Vec3>, keep: seq<bool>, newV: seq<Vec3>)
    requires |keep| == |V|
    ensures Filter(V + newV, keep + Trues(|newV|)) == Filter(V, keep) + newV
  {
    FilterAppend(V, keep, newV, Trues(|newV|));
    FilterAllTrue(newV, Trues(|newV|));
  }

  /**
   * Lines 276-289 and 307-320: the extended mesh reduced to what is kept.
   * The vertices are the kept ones in order followed by the new points, and
   * every kept row, renumbered, names one of them.
   */
  function ExtractKept(V: seq<Vec3>, keep: seq<bool>, newV: seq<Vec3>, Fs: seq<seq<int>>, keepF: seq<bool>): (m: (seq<Vec3>, seq<seq<int>>))
    requires |keep| == |V| && |keepF| == |Fs|
    requires AllKept(Filter(Fs, keepF), keep, |newV|)
    ensures m.0 == Filter(V, keep) + newV
    ensures RowsIn(Filter(Fs, keepF), |V| + |newV|) && m.1 == RenumberRows(Filter(Fs, keepF), NewIds(keep + Trues(|newV|)))
    ensures ValidFaces(m.1, |m.0|)
    ensures |m.1| == CountTrue(keepF)
  {
    var keepExt := keep + Trues(|newV|);
    ExtendedVertices(V, keep, newV);
    RenumberedRows(Filter(Fs, keepF), keep, |newV|, V + newV);
    (Filter(V + newV, keepExt), RenumberRows(Filter(Fs, keepF), NewIds(keepExt)))
  }

  /** A tour of a boundary map whose keys are below n visits only vertices below n. */
  lemma TourBelow(p: seq<int>, be: map<int, int>, n: int)
    requires IsTour(p, be) && KeysBelow(be, n)
    ensures forall x :: x in p ==> 0 <= x < n
  {
    forall k | 0 <= k < |p|
      ensures 0 <= p[k] < n
    {
      if k == |p| - 1 {
        assert p[0] in be;
      } else {
        assert p[k] in be;
      }
    }
  }

  /** What clip_by_plane returns: the clipped vertices, faces and boundary polygons. */
  datatype Clipped = Clipped(V: seq<Vec3>, F: seq<seq<int>>, polygons: seq<seq<int>>)

  /**
   * Lines 291-320, once the faces are clipped: the boundary polygon when
   * asked for, then the kept vertices and rows, renumbered. Stitching fails
   * exactly when the boundary map has no tour.
   */
  method StitchAndExtract(V: seq<Vec3>, keep: seq<bool>, newV: seq<Vec3>, rows: seq<seq<int>>, keepRows: seq<bool>,
                          getPolygon: bool, be: map<int, int>)
    returns (r: Result<Clipped, ClipError>)
    requires |keep| == |V| && |keepRows| == |rows|
    requires AllKept(Filter(rows, keepRows), keep, |newV|)
    requires KeysBelow(be, |V| + |newV|)
    ensures r.Ok? <==> !getPolygon || exists p :: IsTour(p, be)
    ensures r.Err? ==> r.error == NoBoundaryEdge || r.error == MissingEdge
    ensures r.Ok? ==> r.value.V == Filter(V, keep) + newV
    ensures r.Ok? ==>
      RowsIn(Filter(rows, keepRows), |V| + |newV|) &&
      r.value.F == RenumberRows(Filter(rows, keepRows), NewIds(keep + Trues(|newV|)))
    ensures r.Ok? ==> |r.value.F| == CountTrue(keepRows) && ValidFaces(r.value.F, |r.value.V|)
    ensures r.Ok? && !getPolygon ==> r.value.polygons == []
    ensures r.Ok? && getPolygon ==>
      |r.value.polygons| == 1 && IsTour(r.value.polygons[0], be) &&
      forall x :: x in r.value.polygons[0] ==> 0 <= x < |V| + |newV|
  {
    var polygons: seq<seq<int>> := [];
    if getPolygon {
      var stitched := Stitch(be);
      if stitched.Err? {
        return Err(stitched.error);
      }
      polygons := stitched.value;
      TourBelow(polygons[0], be, |V| + |newV|);
    }
    var m := ExtractKept(V, keep, newV, rows, keepRows);
    r := Ok(Clipped(m.0, m.1, polygons));
  }

  /**
   * What clipping a mesh with both kept and dropped vertices yields, F0
   * being the rows before and Fs the rows after the walk rewrote them in
   * place, clipped whether the walk got through every face:
   *  - one new point per crossing edge, no edge twice, each edge one of a
   *    clipped face's, and every crossing edge of a clipped face recorded
   *    (Written's coverage);
   *  - each clipped row, and each pentagon's second row in newF, the rows
   *    of the face's expanded ring; the boundary map the boundary faces'
   *    edges with each clipped face's edge written over them;
   *  - with absTol >= 0, the walk failing exactly on a face with opposite
   *    kept corners; after the walk, stitching failing exactly when the
   *    boundary map has no tour;
   *  - the result the kept vertices then the new points, and the kept and
   *    new rows renumbered.
   */
  ghost predicate MixedClip(V: seq<Vec3>, F0: seq<seq<int>>, Fs: seq<seq<int>>, d: seq<real>, absTol: real,
                            getPolygon: bool, r: Result<Clipped, ClipError>, newV: seq<Vec3>, ends: seq<(int, int)>,
                            newF: seq<seq<int>>, X: seq<Option<seq<int>>>, E: seq<Option<(int, int)>>,
                            be: map<int, int>, clipped: bool)
    requires |d| == |V| && ValidFaces(F0, |V|)
  {
    var keep := KeepMask(d, absTol);
    var clip := ClipMask(F0, d, absTol);
    var cache := CacheOf(|V|, ends);
    EdgePoints(V, d, absTol, newV, ends) && DistinctEdges(ends) && EndsFrom(F0, clip, |F0|, ends) &&
    |Fs| == |F0| && (forall j :: 0 <= j < |F0| && !clip[j] ==> Fs[j] == F0[j]) &&
    (clipped ==> Written(Fs, F0, clip, d, absTol, cache, X, |F0|) && newF == Somes(X)) &&
    (clipped && getPolygon ==>
      EdgesWritten(F0, clip, d, absTol, cache, |V|, E, |F0|) &&
      be == WriteEdges(BoundaryMap(F0, keep, OnPlaneMask(d, absTol)), E)) &&
    (absTol >= 0.0 ==> (clipped <==> forall j :: 0 <= j < |F0| && clip[j] ==> !Opposite(FaceMarks(keep, F0[j])))) &&
    (!clipped ==> r.Err? && (absTol >= 0.0 ==> r.error == ShapeMismatch)) &&
    (clipped ==> (r.Ok? <==> !getPolygon || exists p :: IsTour(p, be))) &&
    (clipped && r.Err? ==> r.error == NoBoundaryEdge || r.error == MissingEdge) &&
    (r.Ok? ==>
      var rows := Filter(Fs + newF, KeptFaces(F0, d, absTol) + Trues(|newF|));
      r.value.V == Filter(V, keep) + newV &&
      RowsIn(rows, |V| + |newV|) && r.value.F == RenumberRows(rows, NewIds(keep + Trues(|newV|))) &&
      |r.value.F| == CountTrue(KeptFaces(F0, d, absTol)) + |newF|) &&
    (r.Ok? && getPolygon ==> |r.value.polygons| == 1 && IsTour(r.value.polygons[0], be)) &&
    (r.Ok? && !getPolygon ==> r.value.polygons == [])
  }

  /**
   * Lines 75-331: clipping a mesh by a plane, keeping what lies below it
   * (within absTol). A mesh wholly kept comes back as it is, one wholly
   * dropped comes back empty. Otherwise the faces to clip are rewritten in
   * place, the kept vertices and faces are extracted and renumbered, and,
   * when asked, the boundary edges are stitched into polygons; the ghost
   * outputs are then the walk's as MixedClip describes them.
   */
  method ClipByPlane(V: seq<Vec3>, F: array<seq<int>>, plane: Plane, absTol: real, getPolygon: bool)
    returns (r: Result<Clipped, ClipError>, ghost newV: seq<Vec3>, ghost ends: seq<(int, int)>,
             ghost newF: seq<seq<int>>, ghost X: seq<Option<seq<int>>>, ghost E: seq<Option<(int, int)>>,
             ghost be: map<int, int>, ghost clipped: bool)
    requires ValidFaces(F[..], |V|)
    modifies F
    ensures var keep := KeepMask(Distances(V, plane.normal, plane.e), absTol);
      CountTrue(keep) == |V| ==> r == Ok(Clipped(V, old(F[..]), []))
    ensures var keep := KeepMask(Distances(V, plane.normal, plane.e), absTol);
      CountTrue(keep) == 0 < |V| ==> r == Ok(Clipped([], [], []))
    ensures r.Ok? ==> ValidFaces(r.value.F, |r.value.V|)
    ensures var keep := KeepMask(Distances(V, plane.normal, plane.e), absTol);
      r.Ok? && 0 < CountTrue(keep) < |V| ==>
        CountTrue(keep) <= |r.value.V| && r.value.V[..CountTrue(keep)] == Filter(V, keep) &&
        forall p :: p in r.value.V[CountTrue(keep)..] ==> SignedDistance(plane.normal, plane.e, p) == 0.0
    ensures var d := Distances(V, plane.normal, plane.e);
      absTol >= 0.0 && 0 < CountTrue(KeepMask(d, absTol)) < |V| ==>
        (r == Err(ShapeMismatch) <==>
         exists j :: 0 <= j < F.Length && ToClipFace(old(F[j]), d, absTol) &&
                     Opposite(FaceMarks(KeepMask(d, absTol), old(F[j]))))
    ensures absTol >= 0.0 && !getPolygon && r.Err? ==> r.error == ShapeMismatch
    ensures !getPolygon && r.Ok? ==> r.value.polygons == []
    ensures var keep := KeepMask(Distances(V, plane.normal, plane.e), absTol);
      getPolygon && r.Ok? && 0 < CountTrue(keep) < |V| ==>
        |r.value.polygons| == 1 && |r.value.polygons[0]| >= 2 &&
        r.value.polygons[0][0] == r.value.polygons[0][|r.value.polygons[0]| - 1] &&
        forall x :: x in r.value.polygons[0] ==> 0 <= x < |V| + |r.value.V| - CountTrue(keep)
    ensures var d := Distances(V, plane.normal, plane.e);
      forall j :: 0 <= j < F.Length && !ToClipFace(old(F[j]), d, absTol) ==> F[j] == old(F[j])
    ensures var keep := KeepMask(Distances(V, plane.normal, plane.e), absTol);
      0 < CountTrue(keep) < |V| ==>
        MixedClip(V, old(F[..]), F[..], Distances(V, plane.normal, plane.e), absTol, getPolygon,
                  r, newV, ends, newF, X, E, be, clipped)
  {
    var d := Distances(V, plane.normal, plane.e);
    var keep := KeepMask(d, absTol);
    var nKept := CountTrue(keep);
    newV, ends, newF, X, E, be, clipped := [], [], [], [], [], map[], true;
    if nKept == |V| {
      r := Ok(Clipped(V, F[..], []));
    } else if nKept == 0 {
      r := Ok(Clipped([], [], []));
    } else {
      ghost var before, after;
      r, newV, ends, newF, X, E, be, clipped, before, after := ClipMixed(V, F, d, keep, plane, absTol, getPolygon);
    }
  }

  /**
   * Lines 102-331, for a mesh with both kept and dropped vertices; before
   * and after are the face array's contents on entry and on exit.
   */
  method ClipMixed(V: seq<Vec3>, F: array<seq<int>>, d: seq<real>, keep: seq<bool>, plane: Plane,
                   absTol: real, getPolygon: bool)
    returns (r: Result<Clipped, ClipError>, ghost newV: seq<Vec3>, ghost ends: seq<(int, int)>,
             ghost newF: seq<seq<int>>, ghost X: seq<Option<seq<int>>>, ghost E: seq<Option<(int, int)>>,
             ghost be: map<int, int>, ghost clipped: bool, ghost before: seq<seq<int>>, ghost after: seq<seq<int>>)
    requires ValidFaces(F[..], |V|) && d == Distances(V, plane.normal, plane.e) && keep == KeepMask(d, absTol)
    requires 0 < CountTrue(keep) < |V|
    modifies F
    ensures before == old(F[..]) && after == F[..]
    ensures r.Ok? ==> ValidFaces(r.value.F, |r.value.V|)
    ensures var keep := KeepMask(d, absTol);
      r.Ok? ==>
        CountTrue(keep) <= |r.value.V| && r.value.V[..CountTrue(keep)] == Filter(V, keep) &&
        forall p :: p in r.value.V[CountTrue(keep)..] ==> SignedDistance(plane.normal, plane.e, p) == 0.0
    ensures absTol >= 0.0 ==>
      (r == Err(ShapeMismatch) <==>
       exists j :: 0 <= j < |before| && ToClipFace(before[j], d, absTol) && Opposite(FaceMarks(KeepMask(d, absTol), before[j])))
    ensures absTol >= 0.0 && !getPolygon && r.Err? ==> r.error == ShapeMismatch
    ensures !getPolygon && r.Ok? ==> r.value.polygons == []
    ensures getPolygon && r.Ok? ==>
      |r.value.polygons| == 1 && |r.value.polygons[0]| >= 2 &&
      r.value.polygons[0][0] == r.value.polygons[0][|r.value.polygons[0]| - 1] &&
      forall x :: x in r.value.polygons[0] ==> 0 <= x < |V| + |r.value.V| - CountTrue(KeepMask(d, absTol))
    ensures MixedClip(V, before, after, d, absTol, getPolygon, r, newV, ends, newF, X, E, be, clipped)
  {
    var F0 := F[..];
    before := F0;
    var keepF := KeptFaces(F0, d, absTol);
    var clip := ClipMask(F0, d, absTol);
    var be0: map<int, int> := map[];
    if getPolygon {
      be0 := BoundaryFaceEdges(F0, keep, OnPlaneMask(d, absTol));
    }
    var err, newV', newF', be', ends', X', E', Fs := ClipFaces(V, d, absTol, F, F0, clip, getPolygon, be0);
    newV, ends, newF, X, E, be, clipped := newV', ends', newF', X', E', be', err.None?;
    after := Fs;
    r := FinishMixed(V, F0, F[..], d, plane, absTol, getPolygon, err, newV', ends', newF', X', E', be0, be');
  }

  /**
   * Lines 276-331, after the walk over the faces: a walk stopped at a face
   * is the error; otherwise the boundary is stitched and the kept vertices
   * and faces are extracted. Fs is the face array after the walk.
   */
  method FinishMixed(V: seq<Vec3>, F0: seq<seq<int>>, Fs: seq<seq<int>>, d: seq<real>, plane: Plane, absTol: real,
                     getPolygon: bool, err: Option<ClipError>, newV: seq<Vec3>, ghost ends: seq<(int, int)>,
                     newF: seq<seq<int>>, ghost X: seq<Option<seq<int>>>, ghost E: seq<Option<(int, int)>>,
                     ghost be0: map<int, int>, be: map<int, int>)
    returns (r: Result<Clipped, ClipError>)
    requires d == Distances(V, plane.normal, plane.e) && ValidFaces(F0, |V|)
    requires WalkedPoints(V, F0, Fs, d, absTol, newV, ends)
    requires var keep, clip := KeepMask(d, absTol), ClipMask(F0, d, absTol);
      (err.None? ==> forall j :: 0 <= j < |F0| && clip[j] ==> KeptRow(Fs[j], keep, |newV|)) &&
      (err.None? ==> AllKept(newF, keep, |newV|)) &&
      (err.None? ==> Written(Fs, F0, clip, d, absTol, CacheOf(|V|, ends), X, |F0|) && newF == Somes(X)) &&
      (err.None? && getPolygon ==>
        EdgesWritten(F0, clip, d, absTol, CacheOf(|V|, ends), |V|, E, |F0|) && be == WriteEdges(be0, E)) &&
      (getPolygon ==> be0 == BoundaryMap(F0, keep, OnPlaneMask(d, absTol))) &&
      (absTol >= 0.0 ==> (err.None? <==> forall j :: 0 <= j < |F0| && clip[j] ==> !Opposite(FaceMarks(keep, F0[j])))) &&
      (absTol >= 0.0 && err.Some? ==> err.value == ShapeMismatch) &&
      KeysBelow(be, |V| + |newV|)
    ensures r.Ok? ==> ValidFaces(r.value.F, |r.value.V|)
    ensures var keep := KeepMask(d, absTol);
      r.Ok? ==>
        CountTrue(keep) <= |r.value.V| && r.value.V[..CountTrue(keep)] == Filter(V, keep) &&
        forall p :: p in r.value.V[CountTrue(keep)..] ==> SignedDistance(plane.normal, plane.e, p) == 0.0
    ensures absTol >= 0.0 ==>
      (r == Err(ShapeMismatch) <==>
       exists j :: 0 <= j < |F0| && ToClipFace(F0[j], d, absTol) && Opposite(FaceMarks(KeepMask(d, absTol), F0[j])))
    ensures absTol >= 0.0 && !getPolygon && r.Err? ==> r.error == ShapeMismatch
    ensures !getPolygon && r.Ok? ==> r.value.polygons == []
    ensures getPolygon && r.Ok? ==>
      |r.value.polygons| == 1 && |r.value.polygons[0]| >= 2 &&
      r.value.polygons[0][0] == r.value.polygons[0][|r.value.polygons[0]| - 1] &&
      forall x :: x in r.value.polygons[0] ==> 0 <= x < |V| + |r.value.V| - CountTrue(KeepMask(d, absTol))
    ensures MixedClip(V, F0, Fs, d, absTol, getPolygon, r, newV, ends, newF, X, E, be, err.None?)
  {
    if err.Some? {
      r := Err(err.value);
      MixedFailed(V, F0, Fs, d, absTol, getPolygon, r, newV, ends, newF, X, E, be);
    } else {
      var keep := KeepMask(d, absTol);
      KeptFacesRows(F0, Fs, newF, d, absTol, |newV|);
      r := StitchAndExtract(V, keep, newV, Fs + newF, KeptFaces(F0, d, absTol) + Trues(|newF|), getPolygon, be);
      MixedDone(V, F0, Fs, d, plane, absTol, getPolygon, r, newV, ends, newF, X, E, be0, be);
    }
  }

  /** The walk facts ClipMixed's two endings share: the new points, and the rows it leaves alone. */
  ghost predicate WalkedPoints(V: seq<Vec3>, F0: seq<seq<int>>, Fs: seq<seq<int>>, d: seq<real>, absTol: real,
                               newV: seq<Vec3>, ends: seq<(int, int)>)
    requires |d| == |V| && ValidFaces(F0, |V|)
  {
    var clip := ClipMask(F0, d, absTol);
    EdgePoints(V, d, absTol, newV, ends) && DistinctEdges(ends) && EndsFrom(F0, clip, |F0|, ends) &&
    |Fs| == |F0| && (forall j :: 0 <= j < |F0| && !clip[j] ==> Fs[j] == F0[j])
  }

  /** ClipMixed's walk stopped at a face: what MixedClip says of a failed walk. */
  lemma MixedFailed(V: seq<Vec3>, F0: seq<seq<int>>, Fs: seq<seq<int>>, d: seq<real>, absTol: real,
                    getPolygon: bool, r: Result<Clipped, ClipError>, newV: seq<Vec3>, ends: seq<(int, int)>,
                    newF: seq<seq<int>>, X: seq<Option<seq<int>>>, E: seq<Option<(int, int)>>, be: map<int, int>)
    requires |d| == |V| && ValidFaces(F0, |V|) && WalkedPoints(V, F0, Fs, d, absTol, newV, ends)
    requires r.Err? && (absTol >= 0.0 ==> r.error == ShapeMismatch)
    requires absTol >= 0.0 ==>
      exists j :: 0 <= j < |F0| && ToClipFace(F0[j], d, absTol) && Opposite(FaceMarks(KeepMask(d, absTol), F0[j]))
    ensures MixedClip(V, F0, Fs, d, absTol, getPolygon, r, newV, ends, newF, X, E, be, false)
  {
  }

  /**
   * ClipMixed's walk got through every face: the facts of the walk and of
   * the extraction make up MixedClip, and give what ClipMixed promises of
   * the clipped mesh.
   */
  lemma MixedDone(V: seq<Vec3>, F0: seq<seq<int>>, Fs: seq<seq<int>>, d: seq<real>, plane: Plane, absTol: real,
                  getPolygon: bool, r: Result<Clipped, ClipError>, newV: seq<Vec3>, ends: seq<(int, int)>,
                  newF: seq<seq<int>>, X: seq<Option<seq<int>>>, E: seq<Option<(int, int)>>,
                  be0: map<int, int>, be: map<int, int>)
    requires d == Distances(V, plane.normal, plane.e) && ValidFaces(F0, |V|)
    requires WalkedPoints(V, F0, Fs, d, absTol, newV, ends)
    requires var clip := ClipMask(F0, d, absTol);
      Written(Fs, F0, clip, d, absTol, CacheOf(|V|, ends), X, |F0|) && newF == Somes(X) &&
      (getPolygon ==>
        EdgesWritten(F0, clip, d, absTol, CacheOf(|V|, ends), |V|, E, |F0|) && be == WriteEdges(be0, E) &&
        be0 == BoundaryMap(F0, KeepMask(d, absTol), OnPlaneMask(d, absTol))) &&
      (absTol >= 0.0 ==> forall j :: 0 <= j < |F0| && clip[j] ==> !Opposite(FaceMarks(KeepMask(d, absTol), F0[j])))
    requires var keep, rows, keepRows := KeepMask(d, absTol), Fs + newF, KeptFaces(F0, d, absTol) + Trues(|newF|);
      (r.Ok? <==> !getPolygon || exists p :: IsTour(p, be)) &&
      (r.Err? ==> r.error == NoBoundaryEdge || r.error == MissingEdge) &&
      (r.Ok? ==>
        r.value.V == Filter(V, keep) + newV && RowsIn(Filter(rows, keepRows), |V| + |newV|) &&
        r.value.F == RenumberRows(Filter(rows, keepRows), NewIds(keep + Trues(|newV|))) &&
        |r.value.F| == CountTrue(keepRows) && ValidFaces(r.value.F, |r.value.V|)) &&
      (r.Ok? && !getPolygon ==> r.value.polygons == []) &&
      (r.Ok? && getPolygon ==>
        |r.value.polygons| == 1 && IsTour(r.value.polygons[0], be) &&
        forall x :: x in r.value.polygons[0] ==> 0 <= x < |V| + |newV|)
    ensures MixedClip(V, F0, Fs, d, absTol, getPolygon, r, newV, ends, newF, X, E, be, true)
    ensures var keep := KeepMask(d, absTol);
      r.Ok? ==>
        CountTrue(keep) <= |r.value.V| && r.value.V[..CountTrue(keep)] == Filter(V, keep) &&
        forall p :: p in r.value.V[CountTrue(keep)..] ==> SignedDistance(plane.normal, plane.e, p) == 0.0
    ensures absTol >= 0.0 ==>
      !exists j :: 0 <= j < |F0| && ToClipFace(F0[j], d, absTol) && Opposite(FaceMarks(KeepMask(d, absTol), F0[j]))
    ensures getPolygon && r.Ok? ==>
      |r.value.polygons[0]| >= 2 && r.value.polygons[0][0] == r.value.polygons[0][|r.value.polygons[0]| - 1] &&
      forall x :: x in r.value.polygons[0] ==> 0 <= x < |V| + |r.value.V| - CountTrue(KeepMask(d, absTol))
  {
    var keepF := KeptFaces(F0, d, absTol);
    CountTrueAppend(keepF, Trues(|newF|));
    CountTrueFull(Trues(|newF|));
    NewPointsOnPlane(V, plane.normal, plane.e, absTol, newV, ends);
  }

  /**
   * Lines 150-163: the boundary dictionary of the faces that have an edge
   * on the plane, one entry per face, a later face overwriting an earlier
   * one's entry under the same key.
   */
  function BoundaryMap(F: seq<seq<int>>, keep: seq<bool>, onPlane: seq<bool>): map<int, int>
    requires ValidFaces(F, |keep|) && |onPlane| == |keep|
  {
    if |F| == 0 then map[]
    else
      var be := BoundaryMap(F[..|F| - 1], keep, onPlane);
      if BoundaryFace(F[|F| - 1], keep, onPlane) then
        var edge := FaceEdge(F[|F| - 1], keep, onPlane);
        be[edge.0 := edge.1]
      else be
  }

  /** Each boundary face's edge start is a key of BoundaryMap. */
  lemma {:induction false} BoundaryMapKeys(F: seq<seq<int>>, keep: seq<bool>, onPlane: seq<bool>, i: int)
    requires ValidFaces(F, |keep|) && |onPlane| == |keep|
    requires 0 <= i < |F| && BoundaryFace(F[i], keep, onPlane)
    ensures FaceEdge(F[i], keep, onPlane).0 in BoundaryMap(F, keep, onPlane)
    decreases |F|
  {
    var n := |F| - 1;
    if i < n {
      BoundaryMapKeys(F[..n], keep, onPlane, i);
    }
  }

  /**
   * Each entry of BoundaryMap is the edge of some boundary face (the last
   * one to write that key), its key a vertex id.
   */
  lemma {:induction false} BoundaryMapEntry(F: seq<seq<int>>, keep: seq<bool>, onPlane: seq<bool>, a: int) returns (i: int)
    requires ValidFaces(F, |keep|) && |onPlane| == |keep|
    requires a in BoundaryMap(F, keep, onPlane)
    ensures 0 <= i < |F| && BoundaryFace(F[i], keep, onPlane)
    ensures FaceEdge(F[i], keep, onPlane) == (a, BoundaryMap(F, keep, onPlane)[a])
    ensures 0 <= a < |keep|
    decreases |F|
  {
    var n := |F| - 1;
    if BoundaryFace(F[n], keep, onPlane) && a == FaceEdge(F[n], keep, onPlane).0 {
      i := n;
      assert a + 1 in F[n];
    } else {
      i := BoundaryMapEntry(F[..n], keep, onPlane, a);
    }
  }

  /** The loop of lines 150-163, building BoundaryMap face by face. */
  method BoundaryFaceEdges(F: seq<seq<int>>, keep: seq<bool>, onPlane: seq<bool>) returns (be: map<int, int>)
    requires ValidFaces(F, |keep|) && |onPlane| == |keep|
    ensures be == BoundaryMap(F, keep, onPlane)
    ensures forall i :: 0 <= i < |F| && BoundaryFace(F[i], keep, onPlane) ==> FaceEdge(F[i], keep, onPlane).0 in be
    ensures forall a :: a in be ==>
      exists i :: 0 <= i < |F| && BoundaryFace(F[i], keep, onPlane) && FaceEdge(F[i], keep, onPlane) == (a, be[a])
    ensures forall a :: a in be ==> 0 <= a < |keep|
  {
    be := map[];
    var i := 0;
    while i < |F|
      invariant 0 <= i <= |F|
      invariant be == BoundaryMap(F[..i], keep, onPlane)
    {
      assert F[..i + 1][..i] == F[..i];
      if BoundaryFace(F[i], keep, onPlane) {
        var edge := FaceEdge(F[i], keep, onPlane);
        be := be[edge.0 := edge.1];
      }
      i := i + 1;
    }
    assert F[..i] == F;
    forall j | 0 <= j < |F| && BoundaryFace(F[j], keep, onPlane)
      ensures FaceEdge(F[j], keep, onPlane).0 in be
    {
      BoundaryMapKeys(F, keep, onPlane, j);
    }
    forall a | a in be
      ensures 0 <= a < |keep|
      ensures exists j :: 0 <= j < |F| && BoundaryFace(F[j], keep, onPlane) && FaceEdge(F[j], keep, onPlane) == (a, be[a])
    {
      var j := BoundaryMapEntry(F, keep, onPlane, a);
    }
  }

  /**
   * p goes once around the boundary dictionary: it is closed, each step
   * follows an entry, and it passes every key exactly once.
   */
  ghost predicate IsTour(p: seq<int>, be: map<int, int>)
  {
    |p| >= 2 && p[0] == p[|p| - 1] &&
    (forall k :: 0 <= k < |p| - 1 ==> p[k] in be && be[p[k]] == p[k + 1]) &&
    (forall k, l :: 0 <= k < l < |p| - 1 ==> p[k] != p[l]) &&
    (forall a :: a in be ==> exists k :: 0 <= k < |p| - 1 && p[k] == a)
  }

  /** Every entry of edges is an entry of be. */
  ghost predicate SubMap(edges: map<int, int>, be: map<int, int>)
  {
    forall a :: a in edges ==> a in be && edges[a] == be[a]
  }

  /**
   * The walk p so far, with edges what is left of be: each step followed
   * an entry that has since been popped, no key was visited twice, and
   * every popped key was visited.
   */
  ghost predicate Walked(p: seq<int>, be: map<int, int>, edges: map<int, int>)
  {
    (forall k :: 0 <= k < |p| - 1 ==> p[k] in be && be[p[k]] == p[k + 1] && p[k] !in edges) &&
    (forall k, l :: 0 <= k < l < |p| - 1 ==> p[k] != p[l]) &&
    (forall a :: a in be && a !in edges ==> exists k :: 0 <= k < |p| - 1 && p[k] == a)
  }

  lemma WalkStep(p: seq<int>, be: map<int, int>, edges: map<int, int>, iV: int)
    requires |p| >= 1 && iV == p[|p| - 1] && iV in edges
    requires SubMap(edges, be) && Walked(p, be, edges)
    ensures SubMap(edges - {iV}, be) && Walked(p + [edges[iV]], be, edges - {iV})
  {
    var p', e' := p + [edges[iV]], edges - {iV};
    forall a | a in be && a !in e'
      ensures exists k :: 0 <= k < |p'| - 1 && p'[k] == a
    {
      if a == iV {
        assert p'[|p| - 1] == a;
      } else {
        var k :| 0 <= k < |p| - 1 && p[k] == a;
        assert p'[k] == a;
      }
    }
  }

  /** A tour can be started at any key: rotating it keeps it a tour. */
  lemma RotateTour(p: seq<int>, be: map<int, int>, v: int) returns (q: seq<int>)
    requires IsTour(p, be) && v in be
    ensures IsTour(q, be) && q[0] == v && |q| == |p|
  {
    var n := |p| - 1;
    var k :| 0 <= k < n && p[k] == v;
    q := p[k..n] + p[..k + 1];
    RotatedAt(p, k, q);
    RotatedSteps(p, be, k, q);
    RotatedDistinct(p, k, q);
    RotatedCovers(p, be, k, q);
  }

  /** Position in p of the i-th vertex of p rotated to start at k. */
  function Shift(i: int, k: int, n: int): int
  {
    if i < n - k then k + i else i - (n - k)
  }

  lemma RotatedAt(p: seq<int>, k: int, q: seq<int>)
    requires 0 <= k < |p| - 1 && q == p[k..|p| - 1] + p[..k + 1]
    ensures |q| == |p| && forall i :: 0 <= i < |p| ==> q[i] == p[Shift(i, k, |p| - 1)]
  {
    var n := |p| - 1;
    forall i | 0 <= i <= n
      ensures q[i] == p[Shift(i, k, n)]
    {
      if i < n - k {
        assert q[i] == p[k..n][i];
      } else {
        assert q[i] == p[..k + 1][i - (n - k)];
      }
    }
  }

  lemma RotatedSteps(p: seq<int>, be: map<int, int>, k: int, q: seq<int>)
    requires 0 <= k < |p| - 1 && p[0] == p[|p| - 1]
    requires forall i :: 0 <= i < |p| - 1 ==> p[i] in be && be[p[i]] == p[i + 1]
    requires |q| == |p| && forall i :: 0 <= i < |p| ==> q[i] == p[Shift(i, k, |p| - 1)]
    ensures forall i :: 0 <= i < |q| - 1 ==> q[i] in be && be[q[i]] == q[i + 1]
  {
    var n := |p| - 1;
    forall i | 0 <= i < n
      ensures q[i] in be && be[q[i]] == q[i + 1]
    {
      assert q[i] == p[Shift(i, k, n)] && q[i + 1] == p[Shift(i + 1, k, n)];
      if i == n - k - 1 {
        assert q[i + 1] == p[0] == p[n];
      }
    }
  }

  lemma RotatedDistinct(p: seq<int>, k: int, q: seq<int>)
    requires 0 <= k < |p| - 1
    requires forall i, j :: 0 <= i < j < |p| - 1 ==> p[i] != p[j]
    requires |q| == |p| && forall i :: 0 <= i < |p| ==> q[i] == p[Shift(i, k, |p| - 1)]
    ensures forall i, j :: 0 <= i < j < |q| - 1 ==> q[i] != q[j]
  {
    var n := |p| - 1;
    forall i, j | 0 <= i < j < n
      ensures q[i] != q[j]
    {
      var a, b := Shift(i, k, n), Shift(j, k, n);
      assert q[i] == p[a] && q[j] == p[b];
      if a < b {
        assert p[a] != p[b];
      } else {
        assert p[b] != p[a];
      }
    }
  }

  lemma RotatedCovers(p: seq<int>, be: map<int, int>, k: int, q: seq<int>)
    requires 0 <= k < |p| - 1
    requires forall a :: a in be ==> exists i :: 0 <= i < |p| - 1 && p[i] == a
    requires |q| == |p| && forall i :: 0 <= i < |p| ==> q[i] == p[Shift(i, k, |p| - 1)]
    ensures forall a :: a in be ==> exists i :: 0 <= i < |q| - 1 && q[i] == a
  {
    var n := |p| - 1;
    forall a | a in be
      ensures exists i :: 0 <= i < n && q[i] == a
    {
      var j :| 0 <= j < n && p[j] == a;
      var i := if j >= k then j - k else n - k + j;
      assert q[i] == p[Shift(i, k, n)];
    }
  }

  /**
   * Walking a tour from its start, the vertex reached is still a key of
   * what is left: only the vertices before it were popped.
   */
  lemma TourNextKey(q: seq<int>, be: map<int, int>, edges: map<int, int>, polygon: seq<int>)
    requires IsTour(q, be) && 1 <= |polygon| < |q| && polygon == q[..|polygon|]
    requires Walked(polygon, be, edges)
    ensures q[|polygon| - 1] in edges
  {
  }

  /** A tour comes back to its start at its last step and at no other. */
  lemma TourCloses(q: seq<int>, be: map<int, int>, m: int)
    requires IsTour(q, be) && 0 <= m < |q| - 1
    ensures q[m + 1] == q[0] <==> m + 1 == |q| - 1
  {
    if m + 1 < |q| - 1 {
      assert q[0] != q[m + 1];
    }
  }

  /** Once a whole tour is walked, nothing of the dictionary is left. */
  lemma TourWalkedAll(q: seq<int>, be: map<int, int>, edges: map<int, int>)
    requires IsTour(q, be) && Walked(q, be, edges) && SubMap(edges, be)
    ensures edges == map[]
  {
    assert forall a :: a !in edges;
  }

  /**
   * One step of the walk along a tour q from its start: the vertex reached
   * is still a key, its entry leads to the next vertex of q, and the walk
   * is back at the start exactly when all of q was walked, leaving nothing.
   */
  lemma TourWalk(q: seq<int>, be: map<int, int>, edges: map<int, int>, polygon: seq<int>)
    requires IsTour(q, be) && 1 <= |polygon| < |q| && polygon == q[..|polygon|]
    requires SubMap(edges, be) && Walked(polygon, be, edges)
    ensures q[|polygon| - 1] in edges && edges[q[|polygon| - 1]] == q[|polygon|]
    ensures polygon + [q[|polygon|]] == q[..|polygon| + 1]
    ensures q[|polygon|] == q[0] <==> |polygon| + 1 == |q|
    ensures q[|polygon|] == q[0] ==> edges - {q[|polygon| - 1]} == map[]
  {
    var m := |polygon| - 1;
    TourNextKey(q, be, edges, polygon);
    TourCloses(q, be, m);
    if q[m + 1] == q[0] {
      WalkStep(polygon, be, edges, q[m]);
      assert polygon + [q[m + 1]] == q;
      TourWalkedAll(q, be, edges - {q[m]});
    }
  }

  /**
   * Lines 294-303: one pass of the inner walk, from initV, popping each key
   * it follows until it is back at initV; it fails on a vertex that is not
   * (or no longer) a key. Started on the whole dictionary, the walk is
   * Walked; started on a rest without initV, it fails at once; and when
   * the dictionary has a tour from initV, the walk closes and pops all.
   */
  method WalkPolygon(be: map<int, int>, edges0: map<int, int>, initV: int, ghost q: seq<int>)
    returns (closed: bool, polygon: seq<int>, edges: map<int, int>)
    requires SubMap(edges0, be)
    ensures SubMap(edges, be)
    ensures closed ==>
      |polygon| >= 2 && polygon[0] == initV && polygon[|polygon| - 1] == initV && |edges| < |edges0|
    ensures closed && edges0 == be ==> Walked(polygon, be, edges) && initV !in edges
    ensures initV !in edges0 ==> !closed
    ensures edges0 == be && IsTour(q, be) && q[0] == initV ==> closed && edges == map[]
  {
    ghost var tour := edges0 == be && IsTour(q, be) && q[0] == initV;
    edges := edges0;
    polygon := [initV];
    var iV := initV;
    while true
      invariant SubMap(edges, edges0) && SubMap(edges, be)
      invariant |polygon| >= 1 && polygon[0] == initV && iV == polygon[|polygon| - 1]
      invariant edges0 == be ==> Walked(polygon, be, edges)
      invariant |edges| + |polygon| - 1 == |edges0|
      invariant initV !in edges0 ==> |polygon| == 1
      invariant tour ==> |polygon| < |q| && polygon == q[..|polygon|]
      decreases |edges|
    {
      if tour {
        TourWalk(q, be, edges, polygon);
      }
      if iV !in edges {
        return false, polygon, edges;
      }
      var target := edges[iV];
      if edges0 == be {
        WalkStep(polygon, be, edges, iV);
      }
      edges := edges - {iV};
      polygon := polygon + [target];
      iV := target;
      if target == initV {
        return true, polygon, edges;
      }
    }
  }

  /**
   * Lines 291-305: the boundary polygons, stitched from an arbitrary first
   * key `initV`. The first vertex is chosen once only, so any entry left
   * once the first polygon closes makes the next walk pop initV again,
   * which fails.
   */
  method Stitch(be: map<int, int>) returns (r: Result<seq<seq<int>>, ClipError>)
    ensures be == map[] ==> r == Err(NoBoundaryEdge)
    ensures r.Ok? ==> |r.value| == 1 && IsTour(r.value[0], be)
    ensures r.Err? ==> r.error == NoBoundaryEdge || r.error == MissingEdge
    ensures (exists p :: IsTour(p, be)) ==> r.Ok?
  {
    if be == map[] {
      return Err(NoBoundaryEdge);
    }
    if forall k :: k !in be {
      assert false;
    }
    var initV :| initV in be;  // `boundary_edges.keys()[0]`: the key first in iteration order
    ghost var hasTour := exists p :: IsTour(p, be);
    ghost var q: seq<int> := [];
    if hasTour {
      var p :| IsTour(p, be);
      q := RotateTour(p, be, initV);
    }
    var edges := be;
    var polygons: seq<seq<int>> := [];
    while |edges| > 0
      invariant SubMap(edges, be) && |polygons| <= 1
      invariant |polygons| == 0 ==> edges == be
      invariant hasTour ==> IsTour(q, be) && q[0] == initV
      invariant hasTour && |polygons| == 1 ==> edges == map[]
      invariant |polygons| == 1 ==>
        |polygons[0]| >= 2 && polygons[0][0] == initV && polygons[0][|polygons[0]| - 1] == initV &&
        Walked(polygons[0], be, edges) && initV !in edges
      decreases |edges|
    {
      var closed, polygon;
      closed, polygon, edges := WalkPolygon(be, edges, initV, q);
      if !closed {
        return Err(MissingEdge);
      }
      polygons := polygons + [polygon];
    }
    return Ok(polygons);
  }

  /** Two separate boundary loops, 0 - 1 - 0 and 2 - 3 - 2. */
  function TwoLoops(): (be: map<int, int>)
    ensures be.Keys == {0, 1, 2, 3}
  {
    map[0 := 1, 1 := 0, 2 := 3, 3 := 2]
  }

  /** A walk along TwoLoops never leaves the loop it started on. */
  lemma {:induction false} TourStaysOnLoop(p: seq<int>, k: int)
    requires IsTour(p, TwoLoops()) && 0 <= k < |p|
    ensures p[k] == p[0] || p[k] == p[1]
  {
    if k > 1 {
      TourStaysOnLoop(p, k - 1);
    }
  }

  /**
   * A boundary made of two separate loops has no tour, so Stitch never
   * succeeds on it: the second loop makes the walk pop its first vertex
   * twice.
   */
  lemma TwoLoopsHaveNoTour(p: seq<int>)
    ensures !IsTour(p, TwoLoops())
  {
    if IsTour(p, TwoLoops()) {
      var a := if p[0] == 0 || p[0] == 1 then 2 else 0;
      assert a in TwoLoops();
      var k :| 0 <= k < |p| - 1 && p[k] == a;
      TourStaysOnLoop(p, k);
      assert false;
    }
  }
}
