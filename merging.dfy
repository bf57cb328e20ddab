/**
 * merge_duplicates (meshmagick.py lines 527-603): vertices closer than tol
 * in every coordinate are merged. The vertex ids are kept in a permutation
 * iperm cut into levels; for each coordinate in turn every level is sorted
 * by that coordinate and cut again wherever the coordinate leaves the band
 * of the level's first value. The first vertex of each final level stands
 * for the whole level, and the face rows are renumbered in place.
 */
module Merging {
  import opened Geometry
  import opened Results
  import opened Mesh
  import opened Clipping

  /** `V[iperm[istart]]` on a mesh without vertices (IndexError). */
  datatype MergeError = NoVertex

  /** `|a - b| <= c` written without an absolute value. */
  predicate Near1(a: real, b: real, c: real) { a - b <= c && b - a <= c }

  /** Two vertices within 2 tol of each other in the first dims coordinates. */
  predicate NearIn(u: Vec3, w: Vec3, dims: int, tol: real)
  {
    (dims >= 1 ==> Near1(u.x, w.x, 2.0 * tol)) &&
    (dims >= 2 ==> Near1(u.y, w.y, 2.0 * tol)) &&
    (dims >= 3 ==> Near1(u.z, w.z, 2.0 * tol))
  }

  /** A vertex and the one it was merged into: the same, or within 2 tol in every coordinate. */
  predicate Close(u: Vec3, w: Vec3, tol: real) { u == w || NearIn(u, w, 3, tol) }

  /** `np.arange(n)` */
  function Iota(n: nat): (s: seq<int>)
    ensures |s| == n && forall i :: 0 <= i < n ==> s[i] == i
  {
    seq(n, i => i)
  }

  /** p lists each of the ids 0..n-1 exactly once. */
  predicate IsPerm(p: seq<int>, n: nat) { |p| == n && multiset(p) == multiset(Iota(n)) }

  /** Every id of s names one of the vertices. */
  predicate IdsIn(s: seq<int>, n: int) { forall k :: 0 <= k < |s| ==> 0 <= s[k] < n }

  /** Column dim of V: the sort key of each vertex id. */
  function Column(V: seq<Vec3>, dim: int): (c: seq<real>)
    requires 0 <= dim < 3
    ensures |c| == |V| && forall i :: 0 <= i < |V| ==> c[i] == Coord(V[i], dim)
  {
    seq(|V|, i requires 0 <= i < |V| => Coord(V[i], dim))
  }

  /** The ids of s in non-decreasing order of their keys. */
  predicate SortedBy(s: seq<int>, key: seq<real>)
    requires IdsIn(s, |key|)
  {
    forall i, j :: 0 <= i < j < |s| ==> key[s[i]] <= key[s[j]]
  }

  // ---------------------------------------------------------------------
  // `level_values.argsort()` applied to the ids of a level

  /** x placed after every id of s whose key does not exceed its own. */
  function Insert(x: int, s: seq<int>, key: seq<real>): (r: seq<int>)
    requires 0 <= x < |key| && IdsIn(s, |key|)
  {
    if |s| == 0 then [x]
    else if key[x] < key[s[0]] then [x] + s
    else [s[0]] + Insert(x, s[1..], key)
  }

  lemma {:induction false} InsertPerm(x: int, s: seq<int>, key: seq<real>)
    requires 0 <= x < |key| && IdsIn(s, |key|)
    ensures multiset(Insert(x, s, key)) == multiset(s) + multiset{x} && |Insert(x, s, key)| == |s| + 1
    ensures IdsIn(Insert(x, s, key), |key|)
    decreases |s|
  {
    if |s| > 0 && key[x] >= key[s[0]] {
      InsertPerm(x, s[1..], key);
      assert s == [s[0]] + s[1..];
    }
  }

  lemma {:induction false} InsertSorted(x: int, s: seq<int>, key: seq<real>)
    requires 0 <= x < |key| && IdsIn(s, |key|) && SortedBy(s, key)
    ensures IdsIn(Insert(x, s, key), |key|) && SortedBy(Insert(x, s, key), key)
    decreases |s|
  {
    InsertPerm(x, s, key);
    if |s| > 0 && key[x] >= key[s[0]] {
      var rest := Insert(x, s[1..], key);
      InsertSorted(x, s[1..], key);
      InsertPerm(x, s[1..], key);
      forall j | 0 <= j < |rest|
        ensures key[s[0]] <= key[rest[j]]
      {
        assert rest[j] in multiset(s[1..]) + multiset{x};
        if rest[j] != x {
          var k :| 0 <= k < |s[1..]| && s[1..][k] == rest[j];
          assert s[k + 1] == rest[j];
        }
      }
    }
  }

  /**
   * argsort: the ids of s reordered by key (an insertion sort, each id
   * placed after the ids already placed whose key does not exceed its own);
   * the ids of the level are rearranged and nothing else.
   */
  function SortIds(s: seq<int>, key: seq<real>): (r: seq<int>)
    requires IdsIn(s, |key|)
    ensures |r| == |s| && multiset(r) == multiset(s) && IdsIn(r, |key|)
    decreases |s|
  {
    if |s| == 0 then []
    else
      var init := SortIds(s[..|s| - 1], key);
      InsertPerm(s[|s| - 1], init, key);
      assert s == s[..|s| - 1] + [s[|s| - 1]];
      Insert(s[|s| - 1], init, key)
  }

  /** Sorting orders the ids of a level by key. */
  lemma {:induction false} SortIdsSorted(s: seq<int>, key: seq<real>)
    requires IdsIn(s, |key|)
    ensures IdsIn(SortIds(s, key), |key|) && SortedBy(SortIds(s, key), key)
    decreases |s|
  {
    if |s| > 0 {
      SortIdsSorted(s[..|s| - 1], key);
      InsertSorted(s[|s| - 1], SortIds(s[..|s| - 1], key), key);
    }
  }

  // ---------------------------------------------------------------------
  // Levels

  /** The level boundaries: the first level starts at 0, the last ends at n, none is empty. */
  predicate Chain(levels: seq<int>, n: int)
  {
    |levels| >= 2 && levels[0] == 0 && levels[|levels| - 1] == n &&
    (forall g :: 0 <= g < |levels| ==> 0 <= levels[g] <= n) &&
    (forall g :: 0 <= g < |levels| - 1 ==> levels[g] < levels[g + 1])
  }

  /** Every two distinct ids of w name vertices within 2 tol in the first dims coordinates. */
  predicate Tight(V: seq<Vec3>, w: seq<int>, dims: int, tol: real)
  {
    forall a, b :: 0 <= a < |w| && 0 <= b < |w| && w[a] != w[b] && 0 <= w[a] < |V| && 0 <= w[b] < |V| ==>
      NearIn(V[w[a]], V[w[b]], dims, tol)
  }

  /** Every vertex equal to one that w names is itself named by w. */
  predicate Gathered(V: seq<Vec3>, w: seq<int>)
  {
    forall k, j :: 0 <= k < |w| && 0 <= w[k] < |V| && 0 <= j < |V| && V[j] == V[w[k]] ==> j in w
  }

  /** A level as the passes leave it: tight in the first dims coordinates, and gathered. */
  predicate Cluster(V: seq<Vec3>, w: seq<int>, dims: int, tol: real)
  {
    Tight(V, w, dims, tol) && Gathered(V, w)
  }

  /** Every level of iperm is a cluster. */
  predicate Clustered(V: seq<Vec3>, p: seq<int>, levels: seq<int>, dims: int, tol: real)
    requires IdsIn(p, |V|) && Chain(levels, |p|)
  {
    forall g :: 0 <= g < |levels| - 1 ==> Cluster(V, p[levels[g]..levels[g + 1]], dims, tol)
  }

  /** Rearranging the ids of a level keeps it tight. */
  lemma TightPerm(V: seq<Vec3>, w: seq<int>, w': seq<int>, dims: int, tol: real)
    requires IdsIn(w, |V|) && multiset(w') == multiset(w) && Tight(V, w, dims, tol)
    ensures IdsIn(w', |V|) && Tight(V, w', dims, tol)
  {
    forall k | 0 <= k < |w'|
      ensures exists a :: 0 <= a < |w| && w[a] == w'[k]
    {
      assert w'[k] in multiset(w);
    }
    forall a, b | 0 <= a < |w'| && 0 <= b < |w'| && w'[a] != w'[b]
      ensures NearIn(V[w'[a]], V[w'[b]], dims, tol)
    {
      var a' :| 0 <= a' < |w| && w[a'] == w'[a];
      var b' :| 0 <= b' < |w| && w[b'] == w'[b];
    }
  }

  /** Rearranging the ids of a level keeps it gathered. */
  lemma GatheredPerm(V: seq<Vec3>, w: seq<int>, w': seq<int>)
    requires IdsIn(w, |V|) && multiset(w') == multiset(w) && Gathered(V, w)
    ensures IdsIn(w', |V|) && Gathered(V, w')
  {
    forall k | 0 <= k < |w'|
      ensures 0 <= w'[k] < |V|
    {
      assert w'[k] in multiset(w);
    }
    forall k, j | 0 <= k < |w'| && 0 <= j < |V| && V[j] == V[w'[k]]
      ensures j in w'
    {
      assert w'[k] in multiset(w);
      var a :| 0 <= a < |w| && w[a] == w'[k];
      assert j in multiset(w);
    }
  }

  /** A part of a tight level is tight. */
  lemma TightSub(V: seq<Vec3>, w: seq<int>, i: int, j: int, dims: int, tol: real)
    requires IdsIn(w, |V|) && Tight(V, w, dims, tol) && 0 <= i <= j <= |w|
    ensures IdsIn(w[i..j], |V|) && Tight(V, w[i..j], dims, tol)
  {
    forall a, b | 0 <= a < j - i && 0 <= b < j - i && w[i..j][a] != w[i..j][b]
      ensures NearIn(V[w[i..j][a]], V[w[i..j][b]], dims, tol)
    {
      assert w[i..j][a] == w[i + a] && w[i..j][b] == w[i + b];
    }
  }

  /**
   * A tight level whose coordinate dim stays within tol of its first
   * vertex's is tight in one more coordinate: any two of its vertices are
   * within 2 tol there.
   */
  lemma TightBand(V: seq<Vec3>, w: seq<int>, dim: int, tol: real)
    requires 0 <= dim < 3 && 0.0 <= tol && IdsIn(w, |V|) && Tight(V, w, dim, tol)
    requires forall k :: 0 < k < |w| ==> Near1(Coord(V[w[k]], dim), Coord(V[w[0]], dim), tol)
    ensures Tight(V, w, dim + 1, tol)
  {
    forall a, b | 0 <= a < |w| && 0 <= b < |w| && w[a] != w[b]
      ensures NearIn(V[w[a]], V[w[b]], dim + 1, tol)
    {
      assert NearIn(V[w[a]], V[w[b]], dim, tol);
      assert Near1(Coord(V[w[a]], dim), Coord(V[w[0]], dim), tol);
      assert Near1(Coord(V[w[b]], dim), Coord(V[w[0]], dim), tol);
    }
  }

  /** Where the level opened at starts[g] ends: the next start, or t. */
  function End(starts: seq<int>, t: int, g: int): int
    requires 0 <= g < |starts|
  {
    if g + 1 < |starts| then starts[g + 1] else t
  }

  /** starts opens levels at increasing positions from s, all before t. */
  predicate Starts(starts: seq<int>, s: int, t: int)
  {
    |starts| >= 1 && starts[0] == s &&
    (forall g :: 0 <= g < |starts| ==> s <= starts[g] < t) &&
    (forall g :: 0 <= g < |starts| - 1 ==> starts[g] < starts[g + 1])
  }

  /** Each value of a level opened at starts[g] is within tol of the value there. */
  predicate Banded(vals: seq<real>, starts: seq<int>, t: int, tol: real)
    requires forall g :: 0 <= g < |starts| ==> 0 <= starts[g] && End(starts, t, g) <= |vals|
  {
    forall g, k :: 0 <= g < |starts| && starts[g] < k < End(starts, t, g) ==> Near1(vals[k], vals[starts[g]], tol)
  }

  /** The scan of positions s..idx-1 has opened the levels starts, vref being the current opening value. */
  predicate Scanned(vals: seq<real>, s: int, t: int, idx: int, starts: seq<int>, vref: real, tol: real)
    requires 0 <= s < t <= |vals|
  {
    s <= idx <= t && Starts(starts, s, t) &&
    (forall g :: 0 <= g < |starts| ==> starts[g] <= idx) &&
    (idx == s ==> starts == [s]) &&
    vref == vals[starts[|starts| - 1]] &&
    Banded(vals, starts, idx, tol) &&
    (forall g :: 0 < g < |starts| ==> !Near1(vals[starts[g]], vals[starts[g - 1]], tol))
  }

  /**
   * The loop of lines 567-570 from position idx on, vref being the value
   * that opened the current level: the positions where a new level opens.
   */
  function Scan(vals: seq<real>, idx: int, t: int, vref: real, tol: real): (r: seq<int>)
    requires 0 <= idx <= t <= |vals|
    ensures forall k :: 0 <= k < |r| ==> idx <= r[k] < t
    decreases t - idx
  {
    if idx == t then []
    else if !Near1(vals[idx], vref, tol) then [idx] + Scan(vals, idx + 1, t, vals[idx], tol)
    else Scan(vals, idx + 1, t, vref, tol)
  }

  /** The levels opened in the sorted level [s, t): s itself (line 565), then those of the scan. */
  function Openings(vals: seq<real>, s: int, t: int, tol: real): (r: seq<int>)
    requires 0 <= s < t <= |vals|
    ensures |r| >= 1 && r[0] == s
  {
    [s] + Scan(vals, s, t, vals[s], tol)
  }

  /** The scan reads only the values of positions idx..t-1. */
  lemma {:induction false} ScanFrame(vals: seq<real>, vals': seq<real>, idx: int, t: int, vref: real, tol: real)
    requires 0 <= idx <= t <= |vals| && t <= |vals'|
    requires forall x :: idx <= x < t ==> vals[x] == vals'[x]
    ensures Scan(vals, idx, t, vref, tol) == Scan(vals', idx, t, vref, tol)
    decreases t - idx
  {
    if idx < t {
      ScanFrame(vals, vals', idx + 1, t, vref, tol);
      ScanFrame(vals, vals', idx + 1, t, vals[idx], tol);
    }
  }

  /** One step of the scan, as the loop of SplitLevel takes it. */
  lemma ScanUnfold(vals: seq<real>, s: int, t: int, idx: int, starts: seq<int>, vref: real, tol: real)
    requires 0 <= s <= idx < t <= |vals|
    ensures !Near1(vals[idx], vref, tol) ==>
      starts + Scan(vals, idx, t, vref, tol) == (starts + [idx]) + Scan(vals, idx + 1, t, vals[idx], tol)
    ensures Near1(vals[idx], vref, tol) ==> starts + Scan(vals, idx, t, vref, tol) == starts + Scan(vals, idx + 1, t, vref, tol)
  {
  }

  /** Each value opening a level is outside the band of the value opening the level before. */
  predicate OutOfBand(vals: seq<real>, starts: seq<int>, tol: real)
    requires forall g :: 0 <= g < |starts| ==> 0 <= starts[g] < |vals|
  {
    forall g :: 0 < g < |starts| ==> !Near1(vals[starts[g]], vals[starts[g - 1]], tol)
  }

  /** The values of positions s..t-1 do not decrease. */
  predicate SortedIn(vals: seq<real>, s: int, t: int)
    requires 0 <= s <= t <= |vals|
  {
    forall x, y :: s <= x < y < t ==> vals[x] <= vals[y]
  }

  /**
   * In a sorted level cut by the scan, a position holding the same value
   * as a position of new level h is itself in level h: the level closing
   * between them would open at a value equal to one inside the band of the
   * level before it.
   */
  lemma SameValueSameLevel(vals: seq<real>, s: int, t: int, starts: seq<int>, tol: real, h: int, x: int, y: int)
    requires 0 <= s < t <= |vals| && 0.0 <= tol && SortedIn(vals, s, t)
    requires Starts(starts, s, t) && Banded(vals, starts, t, tol) && OutOfBand(vals, starts, tol)
    requires 0 <= h < |starts| && starts[h] <= x < End(starts, t, h) && s <= y < t && vals[y] == vals[x]
    ensures starts[h] <= y < End(starts, t, h)
  {
    var o := starts[h];
    assert Near1(vals[x], vals[o], tol) by {
      if x != o {
        assert o < x < End(starts, t, h);
      }
    }
    if h + 1 < |starts| {
      var m := starts[h + 1];
      assert x < m && !Near1(vals[m], vals[o], tol);
      BelowNextLevel(vals, s, t, o, m, x, y, tol);
    }
    if h > 0 {
      var o' := starts[h - 1];
      assert End(starts, t, h - 1) == o;
      assert Near1(vals[o - 1], vals[o'], tol) by {
        if o - 1 != o' {
          assert o' < o - 1 < End(starts, t, h - 1);
        }
      }
      assert !Near1(vals[o], vals[o'], tol);
      AbovePreviousLevel(vals, s, t, o', o, x, y, tol);
    }
  }

  /**
   * In a sorted level, a value equal to one within tol of vals[o] comes
   * before a position m after it whose value is outside that band.
   */
  lemma BelowNextLevel(vals: seq<real>, s: int, t: int, o: int, m: int, x: int, y: int, tol: real)
    requires 0 <= s <= t <= |vals| && SortedIn(vals, s, t)
    requires s <= o <= x < m < t && s <= y < t && vals[y] == vals[x]
    requires Near1(vals[x], vals[o], tol) && !Near1(vals[m], vals[o], tol)
    ensures y < m
  {
    SortedPair(vals, s, t, x, m);
    SortedPair(vals, s, t, m, y);
  }

  /**
   * In a sorted level, a value equal to one at or after position o comes at
   * or after o when vals[o] is outside the band of vals[o'] and vals[o - 1]
   * is inside it.
   */
  lemma AbovePreviousLevel(vals: seq<real>, s: int, t: int, o': int, o: int, x: int, y: int, tol: real)
    requires 0 <= s <= t <= |vals| && SortedIn(vals, s, t)
    requires s <= o' < o <= x < t && s <= y < t && vals[y] == vals[x]
    requires Near1(vals[o - 1], vals[o'], tol) && !Near1(vals[o], vals[o'], tol)
    ensures o <= y
  {
    SortedPair(vals, s, t, y, o - 1);
    SortedPair(vals, s, t, o - 1, o);
    SortedPair(vals, s, t, o, x);
  }

  /** In a sorted level a position before another holds no larger value. */
  lemma SortedPair(vals: seq<real>, s: int, t: int, a: int, b: int)
    requires 0 <= s <= t <= |vals| && SortedIn(vals, s, t) && s <= a < t && s <= b < t
    ensures a <= b ==> vals[a] <= vals[b]
  {
  }

  /** A value within tol of the current opening value joins the current level. */
  lemma ScanJoin(vals: seq<real>, s: int, t: int, idx: int, starts: seq<int>, vref: real, tol: real)
    requires 0 <= s < t <= |vals|
    requires Scanned(vals, s, t, idx, starts, vref, tol) && idx < t && Near1(vals[idx], vref, tol)
    ensures Scanned(vals, s, t, idx + 1, starts, vref, tol)
  {
    forall g, k | 0 <= g < |starts| && starts[g] < k < End(starts, idx + 1, g)
      ensures Near1(vals[k], vals[starts[g]], tol)
    {
      if g + 1 < |starts| || k < idx {
        assert k < End(starts, idx, g);
      }
    }
  }

  /** A value outside the band opens a new level; the levels before it keep their values. */
  lemma ScanOpen(vals: seq<real>, s: int, t: int, idx: int, starts: seq<int>, vref: real, tol: real)
    requires 0 <= s < t <= |vals| && 0.0 <= tol
    requires Scanned(vals, s, t, idx, starts, vref, tol) && idx < t && !Near1(vals[idx], vref, tol)
    ensures Scanned(vals, s, t, idx + 1, starts + [idx], vals[idx], tol)
  {
    assert idx != s;
    assert starts[|starts| - 1] != idx;
    OpenStarts(starts, s, t, idx);
    OpenBanded(vals, starts, idx, tol);
  }

  /** A position after the last opening and before t opens one more level. */
  lemma OpenStarts(starts: seq<int>, s: int, t: int, idx: int)
    requires Starts(starts, s, t) && starts[|starts| - 1] < idx < t
    ensures Starts(starts + [idx], s, t)
  {
    var st := starts + [idx];
    forall g | 0 <= g < |st| - 1
      ensures st[g] < st[g + 1]
    {
      if g + 1 < |starts| {
        assert st[g] == starts[g] && st[g + 1] == starts[g + 1];
      }
    }
  }

  /** The levels scanned up to idx stay banded when idx opens a level of its own. */
  lemma OpenBanded(vals: seq<real>, starts: seq<int>, idx: int, tol: real)
    requires 0 <= idx < |vals| && forall g :: 0 <= g < |starts| ==> 0 <= starts[g] <= idx
    requires Banded(vals, starts, idx, tol)
    ensures Banded(vals, starts + [idx], idx + 1, tol)
  {
    var st := starts + [idx];
    forall g, k | 0 <= g < |st| && st[g] < k < End(st, idx + 1, g)
      ensures Near1(vals[k], vals[st[g]], tol)
    {
      assert g < |starts|;
      assert End(st, idx + 1, g) == End(starts, idx, g);
    }
  }

  /**
   * Lines 563-570: the positions s..t-1 of a sorted level are scanned and a
   * new level is opened wherever the value leaves the band of width tol
   * around the value that opened the current one: the levels opened are
   * the Openings of the level. Every value stays within tol of the value
   * opening its level, and each opening value is outside the band of the
   * one before.
   */
  method SplitLevel(vals: seq<real>, s: int, t: int, tol: real) returns (starts: seq<int>)
    requires 0 <= s < t <= |vals| && 0.0 <= tol
    ensures starts == Openings(vals, s, t, tol)
    ensures Starts(starts, s, t)
    ensures Banded(vals, starts, t, tol)
    ensures OutOfBand(vals, starts, tol)
  {
    starts := [s];
    var vref := vals[s];
    var idx := s;
    while idx < t
      invariant s <= idx <= t
      invariant starts + Scan(vals, idx, t, vref, tol) == Openings(vals, s, t, tol)
    {
      var cur := vals[idx];
      ScanUnfold(vals, s, t, idx, starts, vref, tol);
      if !Near1(cur, vref, tol) {
        starts := starts + [idx];
        vref := cur;
      }
      idx := idx + 1;
    }
    OpeningsBanded(vals, s, t, tol);
  }

  /** The rest of the scan from a scanned prefix leaves the whole level scanned. */
  lemma {:induction false} ScanScanned(vals: seq<real>, s: int, t: int, idx: int, starts: seq<int>, vref: real, tol: real)
    returns (last: real)
    requires 0 <= s < t <= |vals| && 0.0 <= tol && Scanned(vals, s, t, idx, starts, vref, tol)
    ensures Scanned(vals, s, t, t, starts + Scan(vals, idx, t, vref, tol), last, tol)
    decreases t - idx
  {
    if idx == t {
      assert starts + Scan(vals, idx, t, vref, tol) == starts;
      return vref;
    }
    var st, v := ScanStep(vals, s, t, idx, starts, vref, tol);
    last := ScanScanned(vals, s, t, idx + 1, st, v, tol);
  }

  /** One position scanned: it joins the current level or opens a new one. */
  lemma ScanStep(vals: seq<real>, s: int, t: int, idx: int, starts: seq<int>, vref: real, tol: real)
    returns (st: seq<int>, v: real)
    requires 0 <= s < t <= |vals| && 0.0 <= tol && Scanned(vals, s, t, idx, starts, vref, tol) && idx < t
    ensures Scanned(vals, s, t, idx + 1, st, v, tol)
    ensures starts + Scan(vals, idx, t, vref, tol) == st + Scan(vals, idx + 1, t, v, tol)
  {
    ScanUnfold(vals, s, t, idx, starts, vref, tol);
    if !Near1(vals[idx], vref, tol) {
      ScanOpen(vals, s, t, idx, starts, vref, tol);
      st, v := starts + [idx], vals[idx];
    } else {
      ScanJoin(vals, s, t, idx, starts, vref, tol);
      st, v := starts, vref;
    }
  }

  /**
   * The Openings of a level open increasing positions from s; every value
   * is within tol of the value opening its level, and each opening value
   * is outside the band of the one before.
   */
  lemma OpeningsBanded(vals: seq<real>, s: int, t: int, tol: real)
    requires 0 <= s < t <= |vals| && 0.0 <= tol
    ensures Starts(Openings(vals, s, t, tol), s, t)
    ensures Banded(vals, Openings(vals, s, t, tol), t, tol)
    ensures OutOfBand(vals, Openings(vals, s, t, tol), tol)
  {
    var last := ScanScanned(vals, s, t, s, [s], vals[s], tol);
  }

  /** `values`: coordinate dim of each vertex, in the order of iperm. */
  function Values(V: seq<Vec3>, p: seq<int>, dim: int): (vals: seq<real>)
    requires 0 <= dim < 3 && IdsIn(p, |V|)
    ensures |vals| == |p| && forall k :: 0 <= k < |p| ==> vals[k] == Coord(V[p[k]], dim)
  {
    seq(|p|, k requires 0 <= k < |p| => Coord(V[p[k]], dim))
  }

  /**
   * The levels opened in a sorted cluster are clusters in one more
   * coordinate: their vertices came from one cluster, each stays within
   * tol of the vertex opening its new level, and equal vertices, having
   * equal values, fall in the same new level.
   */
  lemma SubLevelsTight(V: seq<Vec3>, p: seq<int>, s: int, t: int, starts: seq<int>, dim: int, tol: real)
    requires 0 <= dim < 3 && 0.0 <= tol && IdsIn(p, |V|) && 0 <= s < t <= |p|
    requires Cluster(V, p[s..t], dim, tol) && SortedIn(Values(V, p, dim), s, t)
    requires Starts(starts, s, t) && Banded(Values(V, p, dim), starts, t, tol) && OutOfBand(Values(V, p, dim), starts, tol)
    ensures forall h :: 0 <= h < |starts| ==> 0 <= starts[h] <= End(starts, t, h) <= t && Cluster(V, p[starts[h]..End(starts, t, h)], dim + 1, tol)
  {
    forall h | 0 <= h < |starts|
      ensures End(starts, t, h) <= t && Cluster(V, p[starts[h]..End(starts, t, h)], dim + 1, tol)
    {
      SubLevelTight(V, p, s, t, starts, dim, tol, h);
    }
  }

  /** One new level h of SubLevelsTight. */
  lemma SubLevelTight(V: seq<Vec3>, p: seq<int>, s: int, t: int, starts: seq<int>, dim: int, tol: real, h: int)
    requires 0 <= dim < 3 && 0.0 <= tol && IdsIn(p, |V|) && 0 <= s < t <= |p|
    requires Cluster(V, p[s..t], dim, tol) && SortedIn(Values(V, p, dim), s, t)
    requires Starts(starts, s, t) && Banded(Values(V, p, dim), starts, t, tol) && OutOfBand(Values(V, p, dim), starts, tol)
    requires 0 <= h < |starts|
    ensures 0 <= starts[h] <= End(starts, t, h) <= t && Cluster(V, p[starts[h]..End(starts, t, h)], dim + 1, tol)
  {
    SubLevelBand(V, p, s, t, starts, dim, tol, h);
    SubLevelGathered(V, p, s, t, starts, dim, tol, h);
  }

  /** A new level is tight in one more coordinate. */
  lemma SubLevelBand(V: seq<Vec3>, p: seq<int>, s: int, t: int, starts: seq<int>, dim: int, tol: real, h: int)
    requires 0 <= dim < 3 && 0.0 <= tol && IdsIn(p, |V|) && 0 <= s < t <= |p|
    requires Tight(V, p[s..t], dim, tol)
    requires Starts(starts, s, t) && Banded(Values(V, p, dim), starts, t, tol) && 0 <= h < |starts|
    ensures 0 <= starts[h] <= End(starts, t, h) <= t && Tight(V, p[starts[h]..End(starts, t, h)], dim + 1, tol)
  {
    var a, b := starts[h], End(starts, t, h);
    TightSub(V, p[s..t], a - s, b - s, dim, tol);
    assert p[s..t][a - s..b - s] == p[a..b];
    var w := p[a..b];
    forall k | 0 < k < |w|
      ensures Near1(Coord(V[w[k]], dim), Coord(V[w[0]], dim), tol)
    {
      assert w[k] == p[a + k] && w[0] == p[a];
    }
    TightBand(V, w, dim, tol);
  }

  /** Equal vertices of a sorted gathered level land in the same new level. */
  lemma SubLevelGathered(V: seq<Vec3>, p: seq<int>, s: int, t: int, starts: seq<int>, dim: int, tol: real, h: int)
    requires 0 <= dim < 3 && 0.0 <= tol && IdsIn(p, |V|) && 0 <= s < t <= |p|
    requires Gathered(V, p[s..t]) && SortedIn(Values(V, p, dim), s, t)
    requires Starts(starts, s, t) && Banded(Values(V, p, dim), starts, t, tol) && OutOfBand(Values(V, p, dim), starts, tol)
    requires 0 <= h < |starts|
    ensures 0 <= starts[h] <= End(starts, t, h) <= t && Gathered(V, p[starts[h]..End(starts, t, h)])
  {
    var a, b := starts[h], End(starts, t, h);
    forall k, j | 0 <= k < b - a && 0 <= j < |V| && V[j] == V[p[a..b][k]]
      ensures j in p[a..b]
    {
      SameVertexSameLevel(V, p, s, t, starts, dim, tol, h, a + k, j);
    }
  }

  /** One vertex j equal to the vertex at position x of new level h. */
  lemma SameVertexSameLevel(V: seq<Vec3>, p: seq<int>, s: int, t: int, starts: seq<int>, dim: int, tol: real, h: int, x: int, j: int)
    requires 0 <= dim < 3 && 0.0 <= tol && IdsIn(p, |V|) && 0 <= s < t <= |p|
    requires Gathered(V, p[s..t]) && SortedIn(Values(V, p, dim), s, t)
    requires Starts(starts, s, t) && Banded(Values(V, p, dim), starts, t, tol) && OutOfBand(Values(V, p, dim), starts, tol)
    requires 0 <= h < |starts| && starts[h] <= x < End(starts, t, h) && 0 <= j < |V| && V[j] == V[p[x]]
    ensures End(starts, t, h) <= t && j in p[starts[h]..End(starts, t, h)]
  {
    var a, b := starts[h], End(starts, t, h);
    var y := GatheredAt(V, p, s, t, x, j);
    var vals := Values(V, p, dim);
    assert vals[y] == Coord(V[j], dim) == vals[x];
    SameValueSameLevel(vals, s, t, starts, tol, h, x, y);
    assert p[a..b][y - a] == j;
  }

  /** A vertex equal to that of a position of a gathered level sits at a position of the level. */
  lemma GatheredAt(V: seq<Vec3>, p: seq<int>, s: int, t: int, x: int, j: int) returns (y: int)
    requires IdsIn(p, |V|) && 0 <= s <= x < t <= |p| && Gathered(V, p[s..t]) && 0 <= j < |V| && V[j] == V[p[x]]
    ensures s <= y < t && p[y] == j
  {
    var w := p[s..t];
    assert p[x] == w[x - s];
    assert j in w;
    var k' :| 0 <= k' < t - s && w[k'] == j;
    y := s + k';
  }

  lemma IdsInSlices(s: seq<int>, n: int)
    requires IdsIn(s, n)
    ensures forall i, j :: 0 <= i <= j <= |s| ==> IdsIn(s[i..j], n)
  {
    forall i, j | 0 <= i <= j <= |s|
      ensures IdsIn(s[i..j], n)
    {
      assert forall k :: 0 <= k < j - i ==> s[i..j][k] == s[i + k];
    }
  }

  /** The levels before s followed by those opened in [s, t) form a chain up to t. */
  lemma ChainAppend(lt: seq<int>, s: int, t: int, starts: seq<int>)
    requires 0 <= s < t
    requires lt == [] ==> s == 0
    requires lt != [] ==> Chain(lt + [s], s)
    requires Starts(starts, s, t)
    ensures Chain(lt + starts + [t], t)
  {
    var L := lt + starts + [t];
    forall g | 0 <= g < |L|
      ensures 0 <= L[g] <= t
    {
      if g < |lt| {
        assert L[g] == (lt + [s])[g];
      }
    }
    forall g | 0 <= g < |L| - 1
      ensures L[g] < L[g + 1]
    {
      if g < |lt| {
        assert L[g] == (lt + [s])[g] && L[g + 1] == (lt + [s])[g + 1];
      }
    }
  }

  /** Appending the levels opened in [s, t) to tight levels covering [0, s). */
  lemma AllTightAppend(V: seq<Vec3>, p: seq<int>, lt: seq<int>, s: int, t: int, starts: seq<int>, dims: int, tol: real)
    requires IdsIn(p, |V|) && 0 <= s < t <= |p|
    requires lt == [] ==> s == 0
    requires lt != [] ==> Chain(lt + [s], s) && Clustered(V, p[..s], lt + [s], dims, tol)
    requires Starts(starts, s, t)
    requires forall h :: 0 <= h < |starts| ==> 0 <= starts[h] <= End(starts, t, h) <= t && Cluster(V, p[starts[h]..End(starts, t, h)], dims, tol)
    ensures Chain(lt + starts + [t], t) && Clustered(V, p[..t], lt + starts + [t], dims, tol)
  {
    ChainAppend(lt, s, t, starts);
    IdsInSlices(p[..t], |V|);
    var L := lt + starts + [t];
    forall g | 0 <= g < |L| - 1
      ensures Cluster(V, p[..t][L[g]..L[g + 1]], dims, tol)
    {
      if g < |lt| {
        assert L[..|lt| + 1] == lt + [s];
        OldLevelTight(V, p, lt, s, t, L, g, dims, tol);
      } else {
        NewLevelTight(V, p, lt, t, starts, L, g, dims, tol);
      }
    }
  }

  /** A level opened in [s, t) sits at its place among the levels collected so far. */
  lemma NewLevelTight(V: seq<Vec3>, p: seq<int>, lt: seq<int>, t: int, starts: seq<int>, L: seq<int>, g: int, dims: int, tol: real)
    requires IdsIn(p, |V|) && 0 <= t <= |p| && L == lt + starts + [t] && |lt| <= g < |L| - 1
    requires forall h :: 0 <= h < |starts| ==> 0 <= starts[h] <= End(starts, t, h) <= t && Cluster(V, p[starts[h]..End(starts, t, h)], dims, tol)
    ensures 0 <= L[g] <= L[g + 1] <= t && IdsIn(p[..t][L[g]..L[g + 1]], |V|)
    ensures Cluster(V, p[..t][L[g]..L[g + 1]], dims, tol)
  {
    var h := g - |lt|;
    assert L[g] == starts[h] && L[g + 1] == End(starts, t, h);
    assert p[..t][L[g]..L[g + 1]] == p[starts[h]..End(starts, t, h)];
  }

  /** A level closed before s keeps its ids once the walk reaches t. */
  lemma OldLevelTight(V: seq<Vec3>, p: seq<int>, lt: seq<int>, s: int, t: int, L: seq<int>, g: int, dims: int, tol: real)
    requires IdsIn(p, |V|) && 0 <= s < t <= |p|
    requires lt != [] && Chain(lt + [s], s) && Clustered(V, p[..s], lt + [s], dims, tol)
    requires |lt| < |L| && L[..|lt| + 1] == lt + [s] && 0 <= g < |lt|
    ensures 0 <= L[g] <= L[g + 1] <= t && IdsIn(p[..t][L[g]..L[g + 1]], |V|)
    ensures Cluster(V, p[..t][L[g]..L[g + 1]], dims, tol)
  {
    var M := lt + [s];
    assert L[g] == L[..|lt| + 1][g] == M[g] && L[g + 1] == L[..|lt| + 1][g + 1] == M[g + 1];
    assert p[..t][L[g]..L[g + 1]] == p[..s][M[g]..M[g + 1]];
    assert Cluster(V, p[..s][M[g]..M[g + 1]], dims, tol);
  }

  /** The walk over the levels of one coordinate after its first i levels. */
  ghost predicate Refined(V: seq<Vec3>, levels: seq<int>, p0: seq<int>, p: seq<int>, i: int, lt: seq<int>, dims: int, tol: real)
    requires Chain(levels, |p0|) && 0 <= i < |levels| && IdsIn(p, |V|) && |p| == |p0|
  {
    p[levels[i]..] == p0[levels[i]..] &&
    multiset(p[..levels[i]]) == multiset(p0[..levels[i]]) &&
    (lt == [] <==> i == 0) &&
    (lt != [] ==> Chain(lt + [levels[i]], levels[i]) && Clustered(V, p[..levels[i]], lt + [levels[i]], dims, tol))
  }

  /** One level handled: its ids rearranged within it and the levels opened in it recorded. */
  lemma RefineStep(V: seq<Vec3>, levels: seq<int>, p0: seq<int>, p: seq<int>, p': seq<int>, i: int,
                   lt: seq<int>, starts: seq<int>, dim: int, tol: real)
    requires 0 <= dim < 3 && 0.0 <= tol
    requires Chain(levels, |p0|) && 0 <= i < |levels| - 1 && IdsIn(p, |V|) && |p| == |p0|
    requires IdsIn(p0, |V|) && Clustered(V, p0, levels, dim, tol)
    requires Refined(V, levels, p0, p, i, lt, dim + 1, tol)
    requires IdsIn(p', |V|) && |p'| == |p|
    requires p'[..levels[i]] == p[..levels[i]] && p'[levels[i + 1]..] == p[levels[i + 1]..]
    requires multiset(p'[levels[i]..levels[i + 1]]) == multiset(p[levels[i]..levels[i + 1]])
    requires SortedIn(Values(V, p', dim), levels[i], levels[i + 1])
    requires Starts(starts, levels[i], levels[i + 1]) && Banded(Values(V, p', dim), starts, levels[i + 1], tol)
    requires OutOfBand(Values(V, p', dim), starts, tol)
    ensures Refined(V, levels, p0, p', i + 1, lt + starts, dim + 1, tol)
  {
    var s, t := levels[i], levels[i + 1];
    assert p[s..t] == p0[s..t] by {
      assert p[s..] == p0[s..];
      assert p[s..t] == p[s..][..t - s] && p0[s..t] == p0[s..][..t - s];
    }
    assert Cluster(V, p0[s..t], dim, tol);
    TightPerm(V, p[s..t], p'[s..t], dim, tol);
    GatheredPerm(V, p[s..t], p'[s..t]);
    SubLevelsTight(V, p', s, t, starts, dim, tol);
    if lt != [] {
      assert p'[..s] == p[..s];
    }
    AllTightAppend(V, p', lt, s, t, starts, dim + 1, tol);
    StepMultiset(p0, p, p', s, t);
  }

  /** Rearranging [s, t) of the walked prefix [0, s) extends the walked prefix to [0, t). */
  lemma StepMultiset(p0: seq<int>, p: seq<int>, p': seq<int>, s: int, t: int)
    requires 0 <= s < t <= |p0| == |p| == |p'|
    requires p[s..] == p0[s..] && multiset(p[..s]) == multiset(p0[..s])
    requires p'[..s] == p[..s] && p'[t..] == p[t..] && multiset(p'[s..t]) == multiset(p[s..t])
    ensures p'[t..] == p0[t..] && multiset(p'[..t]) == multiset(p0[..t])
  {
    assert p[s..] == p[s..t] + p[t..];
    assert p0[s..] == p0[s..t] + p0[t..];
    assert p[s..t] == p0[s..t];
    assert p'[..t] == p'[..s] + p'[s..t];
    assert p0[..t] == p0[..s] + p0[s..t];
  }

  /**
   * Lines 552-573 for one level [s, t): a level of more than one vertex has
   * its ids sorted in place by coordinate dim (lines 555-561) and is cut
   * where the coordinate leaves the band of the value opening the current
   * new level; a level of one vertex is kept as it is (line 573). Either
   * way the level ends up sorted, and the levels opened in it are its
   * Openings.
   */
  method RefineLevel(V: seq<Vec3>, dim: int, iperm: array<int>, s: int, t: int, tol: real) returns (starts: seq<int>)
    requires 0 <= dim < 3 && 0.0 <= tol && 0 <= s < t <= iperm.Length && IdsIn(iperm[..], |V|)
    modifies iperm
    ensures IdsIn(iperm[..], |V|)
    ensures iperm[..][..s] == old(iperm[..][..s]) && iperm[..][t..] == old(iperm[..][t..])
    ensures multiset(iperm[..][s..t]) == multiset(old(iperm[..][s..t]))
    ensures SortedIn(Values(V, iperm[..], dim), s, t)
    ensures starts == Openings(Values(V, iperm[..], dim), s, t, tol)
    ensures Starts(starts, s, t) && Banded(Values(V, iperm[..], dim), starts, t, tol)
    ensures OutOfBand(Values(V, iperm[..], dim), starts, tol)
    ensures iperm[..] == SortedLevel(V, dim, old(iperm[..]), s, t)
  {
    if t - s > 1 {
      SortLevel(V, dim, iperm, s, t);
      starts := SplitLevel(Values(V, iperm[..], dim), s, t, tol);
    } else {
      starts := [s];
      assert Scan(Values(V, iperm[..], dim), s + 1, t, Values(V, iperm[..], dim)[s], tol) == [];
    }
  }

  /** p with the ids of [s, t) replaced by w. */
  lemma SpliceIds(p: seq<int>, s: int, t: int, w: seq<int>, n: int)
    requires 0 <= s <= t <= |p| && IdsIn(p, n) && IdsIn(w, n) && multiset(w) == multiset(p[s..t])
    ensures IdsIn(p[..s] + w + p[t..], n) && multiset(p[..s] + w + p[t..]) == multiset(p)
  {
    assert p == p[..s] + p[s..t] + p[t..];
  }

  /** Lines 555-561 as a value: the ids of [s, t) in the order argsort gives them, the others in place. */
  ghost function Argsorted(V: seq<Vec3>, dim: int, p: seq<int>, s: int, t: int): (q: seq<int>)
    requires 0 <= dim < 3 && 0 <= s <= t <= |p| && IdsIn(p, |V|)
    ensures |q| == |p| && IdsIn(q, |V|) && multiset(q) == multiset(p)
  {
    IdsInSlices(p, |V|);
    SpliceIds(p, s, t, SortIds(p[s..t], Column(V, dim)), |V|);
    p[..s] + SortIds(p[s..t], Column(V, dim)) + p[t..]
  }

  /** Lines 552-573 on iperm: a level of more than one id is argsorted, a level of one id stays. */
  ghost function SortedLevel(V: seq<Vec3>, dim: int, p: seq<int>, s: int, t: int): (q: seq<int>)
    requires 0 <= dim < 3 && 0 <= s <= t <= |p| && IdsIn(p, |V|)
    ensures |q| == |p| && IdsIn(q, |V|) && multiset(q) == multiset(p)
  {
    if t - s > 1 then Argsorted(V, dim, p, s, t) else p
  }

  /** Lines 555-561: `iperm_view[:] = iperm_view[level_values.argsort()]`, in place. */
  method SortLevel(V: seq<Vec3>, dim: int, iperm: array<int>, s: int, t: int)
    requires 0 <= dim < 3 && 0 <= s < t <= iperm.Length && IdsIn(iperm[..], |V|)
    modifies iperm
    ensures IdsIn(iperm[..], |V|)
    ensures iperm[..][..s] == old(iperm[..][..s]) && iperm[..][t..] == old(iperm[..][t..])
    ensures multiset(iperm[..][s..t]) == multiset(old(iperm[..][s..t]))
    ensures SortedIn(Values(V, iperm[..], dim), s, t)
    ensures iperm[..] == Argsorted(V, dim, old(iperm[..]), s, t)
  {
    ghost var p := iperm[..];
    var sorted := SortIds(iperm[s..t], Column(V, dim));
    SortIdsSorted(iperm[s..t], Column(V, dim));
    forall k | s <= k < t {
      iperm[k] := sorted[k - s];
    }
    SortedPut(V, dim, p, iperm[..], s, t, sorted);
  }

  /** Writing a sorted permutation of a level over it changes nothing outside the level. */
  lemma SortedPut(V: seq<Vec3>, dim: int, p: seq<int>, q: seq<int>, s: int, t: int, sorted: seq<int>)
    requires 0 <= dim < 3 && IdsIn(p, |V|) && 0 <= s <= t <= |p| && |q| == |p| && |sorted| == t - s
    requires forall k :: 0 <= k < |q| ==> q[k] == if s <= k < t then sorted[k - s] else p[k]
    requires multiset(sorted) == multiset(p[s..t]) && IdsIn(sorted, |V|) && SortedBy(sorted, Column(V, dim))
    ensures IdsIn(q, |V|)
    ensures q[..s] == p[..s] && q[t..] == p[t..]
    ensures multiset(q[s..t]) == multiset(p[s..t])
    ensures SortedIn(Values(V, q, dim), s, t)
    ensures q == p[..s] + sorted + p[t..]
  {
    assert q[s..t] == sorted;
    assert q[..s] == p[..s] && q[t..] == p[t..];
    SortedPlaced(V, dim, q, s, t, sorted);
  }

  /** A level holding the ids sorted by coordinate dim has non-decreasing values. */
  lemma SortedPlaced(V: seq<Vec3>, dim: int, q: seq<int>, s: int, t: int, sorted: seq<int>)
    requires 0 <= dim < 3 && IdsIn(q, |V|) && 0 <= s <= t <= |q| && q[s..t] == sorted
    requires IdsIn(sorted, |V|) && SortedBy(sorted, Column(V, dim))
    ensures SortedIn(Values(V, q, dim), s, t)
  {
    forall x, y | s <= x < y < t
      ensures Values(V, q, dim)[x] <= Values(V, q, dim)[y]
    {
      assert q[x] == sorted[x - s] && q[y] == sorted[y - s];
    }
  }

  /**
   * The levels one coordinate pass opens in the first i levels: the
   * Openings of each, in order.
   */
  function Cuts(vals: seq<real>, levels: seq<int>, i: int, tol: real): seq<int>
    requires Chain(levels, |vals|) && 0 <= i < |levels|
  {
    if i == 0 then [] else Cuts(vals, levels, i - 1, tol) + Openings(vals, levels[i - 1], levels[i], tol)
  }

  /** The cuts of the first i levels read only the values before levels[i]. */
  lemma {:induction false} CutsFrame(vals: seq<real>, vals': seq<real>, levels: seq<int>, i: int, tol: real)
    requires Chain(levels, |vals|) && |vals'| == |vals| && 0 <= i < |levels|
    requires forall x :: 0 <= x < levels[i] ==> vals[x] == vals'[x]
    ensures Cuts(vals, levels, i, tol) == Cuts(vals', levels, i, tol)
  {
    if i > 0 {
      CutsFrame(vals, vals', levels, i - 1, tol);
      ScanFrame(vals, vals', levels[i - 1], levels[i], vals[levels[i - 1]], tol);
    }
  }

  /**
   * A pass nests its levels in the old ones: every old level still opens
   * where it did, and the other openings lie inside the old levels.
   */
  lemma {:induction false} CutsNest(vals: seq<real>, levels: seq<int>, i: int, tol: real)
    requires Chain(levels, |vals|) && 0 <= i < |levels|
    ensures forall g :: 0 <= g < i ==> levels[g] in Cuts(vals, levels, i, tol)
  {
    if i > 0 {
      CutsNest(vals, levels, i - 1, tol);
      var o := Openings(vals, levels[i - 1], levels[i], tol);
      assert Cuts(vals, levels, i, tol)[|Cuts(vals, levels, i - 1, tol)|] == o[0];
    }
  }

  /** The levels before i are sorted and hold the ids they held in p0. */
  ghost predicate LevelsDone(V: seq<Vec3>, levels: seq<int>, p0: seq<int>, p: seq<int>, i: int, dim: int)
    requires 0 <= dim < 3 && Chain(levels, |p0|) && 0 <= i < |levels| && IdsIn(p, |V|) && |p| == |p0|
  {
    forall g :: 0 <= g < i ==>
      multiset(p[levels[g]..levels[g + 1]]) == multiset(p0[levels[g]..levels[g + 1]]) &&
      SortedIn(Values(V, p, dim), levels[g], levels[g + 1])
  }

  /** Level i done: the earlier levels are untouched, so they stay done. */
  lemma LevelsDoneStep(V: seq<Vec3>, levels: seq<int>, p0: seq<int>, p: seq<int>, p': seq<int>, i: int, dim: int)
    requires 0 <= dim < 3 && Chain(levels, |p0|) && 0 <= i < |levels| - 1
    requires IdsIn(p, |V|) && IdsIn(p', |V|) && |p| == |p0| == |p'|
    requires LevelsDone(V, levels, p0, p, i, dim)
    requires p[levels[i]..] == p0[levels[i]..]
    requires p'[..levels[i]] == p[..levels[i]]
    requires multiset(p'[levels[i]..levels[i + 1]]) == multiset(p[levels[i]..levels[i + 1]])
    requires SortedIn(Values(V, p', dim), levels[i], levels[i + 1])
    ensures LevelsDone(V, levels, p0, p', i + 1, dim)
  {
    ChainOrdered(levels, |p0|);
    var s, t := levels[i], levels[i + 1];
    assert p[s..t] == p0[s..t] by {
      assert p[s..t] == p[s..][..t - s] && p0[s..t] == p0[s..][..t - s];
    }
    forall g | 0 <= g < i + 1
      ensures multiset(p'[levels[g]..levels[g + 1]]) == multiset(p0[levels[g]..levels[g + 1]])
      ensures SortedIn(Values(V, p', dim), levels[g], levels[g + 1])
    {
      if g < i {
        PrefixLevel(V, p, p', levels[g], levels[g + 1], s, dim);
      }
    }
  }

  /** A level inside an unchanged prefix keeps its ids and its order. */
  lemma PrefixLevel(V: seq<Vec3>, p: seq<int>, p': seq<int>, a: int, b: int, n: int, dim: int)
    requires 0 <= dim < 3 && IdsIn(p, |V|) && IdsIn(p', |V|) && |p| == |p'|
    requires 0 <= a <= b <= n <= |p| && p'[..n] == p[..n]
    ensures p'[a..b] == p[a..b]
    ensures SortedIn(Values(V, p, dim), a, b) ==> SortedIn(Values(V, p', dim), a, b)
  {
    assert p'[a..b] == p'[..n][a..b];
    assert p[a..b] == p[..n][a..b];
    forall x | a <= x < b
      ensures Values(V, p', dim)[x] == Values(V, p, dim)[x]
    {
      assert p'[..n][x] == p[..n][x];
    }
  }

  /** Level i done: the cuts of the earlier levels stay, and level i's openings follow them. */
  lemma CutsStep(V: seq<Vec3>, levels: seq<int>, p: seq<int>, p': seq<int>, i: int, lt: seq<int>, starts: seq<int>, dim: int, tol: real)
    requires 0 <= dim < 3 && Chain(levels, |p|) && 0 <= i < |levels| - 1
    requires IdsIn(p, |V|) && IdsIn(p', |V|) && |p| == |p'| && p'[..levels[i]] == p[..levels[i]]
    requires lt == Cuts(Values(V, p, dim), levels, i, tol)
    requires starts == Openings(Values(V, p', dim), levels[i], levels[i + 1], tol)
    ensures lt + starts == Cuts(Values(V, p', dim), levels, i + 1, tol)
  {
    var s := levels[i];
    forall x | 0 <= x < s
      ensures Values(V, p, dim)[x] == Values(V, p', dim)[x]
    {
      assert p[..s][x] == p'[..s][x];
    }
    CutsFrame(Values(V, p, dim), Values(V, p', dim), levels, i, tol);
  }

  /** iperm once the first i levels have been sorted by coordinate dim (lines 552-573). */
  ghost function SortLevels(V: seq<Vec3>, dim: int, p: seq<int>, levels: seq<int>, i: int): (q: seq<int>)
    requires 0 <= dim < 3 && Chain(levels, |p|) && 0 <= i < |levels| && IdsIn(p, |V|)
    ensures |q| == |p| && IdsIn(q, |V|) && multiset(q) == multiset(p)
  {
    if i == 0 then p else SortedLevel(V, dim, SortLevels(V, dim, p, levels, i - 1), levels[i - 1], levels[i])
  }

  /** The cuts of the first i levels, closed by levels[i], are a chain up to levels[i]. */
  lemma {:induction false} CutsChain(vals: seq<real>, levels: seq<int>, i: int, tol: real)
    requires Chain(levels, |vals|) && 0 < i < |levels| && 0.0 <= tol
    ensures Chain(Cuts(vals, levels, i, tol) + [levels[i]], levels[i])
  {
    OpeningsBanded(vals, levels[i - 1], levels[i], tol);
    if i > 1 {
      CutsChain(vals, levels, i - 1, tol);
    }
    ChainAppend(Cuts(vals, levels, i - 1, tol), levels[i - 1], levels[i], Openings(vals, levels[i - 1], levels[i], tol));
  }

  /**
   * Lines 546-581 for one coordinate: every level is refined in turn and
   * the levels it opens are collected. Each old level keeps its ids and is
   * sorted, the new levels are exactly the cuts the scan makes in them,
   * and the new levels are clusters in one more coordinate.
   */
  method RefineLevels(V: seq<Vec3>, dim: int, levels: seq<int>, iperm: array<int>, tol: real) returns (levelsTmp: seq<int>)
    requires 0 <= dim < 3 && 0.0 <= tol
    requires iperm.Length == |V| && IsPerm(iperm[..], |V|) && IdsIn(iperm[..], |V|)
    requires Chain(levels, |V|) && Clustered(V, iperm[..], levels, dim, tol)
    modifies iperm
    ensures IsPerm(iperm[..], |V|) && IdsIn(iperm[..], |V|)
    ensures forall g :: 0 <= g < |levels| - 1 ==>
      multiset(iperm[..][levels[g]..levels[g + 1]]) == multiset(old(iperm[..])[levels[g]..levels[g + 1]]) &&
      SortedIn(Values(V, iperm[..], dim), levels[g], levels[g + 1])
    ensures iperm[..] == SortLevels(V, dim, old(iperm[..]), levels, |levels| - 1)
    ensures levelsTmp == Cuts(Values(V, iperm[..], dim), levels, |levels| - 1, tol)
    ensures Chain(levelsTmp + [|V|], |V|)
    ensures Clustered(V, iperm[..], levelsTmp + [|V|], dim + 1, tol)
  {
    ghost var p0 := iperm[..];
    levelsTmp := [];
    var i := 0;
    while i < |levels| - 1
      invariant 0 <= i < |levels|
      invariant IdsIn(iperm[..], |V|)
      invariant Refined(V, levels, p0, iperm[..], i, levelsTmp, dim + 1, tol)
      invariant LevelsDone(V, levels, p0, iperm[..], i, dim)
      invariant levelsTmp == Cuts(Values(V, iperm[..], dim), levels, i, tol)
      invariant iperm[..] == SortLevels(V, dim, p0, levels, i)
    {
      levelsTmp := RefineAt(V, dim, levels, iperm, tol, p0, i, levelsTmp);
      i := i + 1;
    }
    RefinedAll(V, dim, levels, p0, iperm[..], levelsTmp, tol);
  }

  /** The loop of lines 551-573 over: every level done, the whole of iperm refined. */
  lemma RefinedAll(V: seq<Vec3>, dim: int, levels: seq<int>, p0: seq<int>, p: seq<int>, lt: seq<int>, tol: real)
    requires 0 <= dim < 3 && 0.0 <= tol && |p0| == |V| && IsPerm(p0, |V|) && IdsIn(p0, |V|) && Chain(levels, |V|)
    requires IdsIn(p, |V|) && |p| == |V|
    requires Refined(V, levels, p0, p, |levels| - 1, lt, dim + 1, tol)
    requires LevelsDone(V, levels, p0, p, |levels| - 1, dim)
    ensures IsPerm(p, |V|)
    ensures forall g :: 0 <= g < |levels| - 1 ==>
      multiset(p[levels[g]..levels[g + 1]]) == multiset(p0[levels[g]..levels[g + 1]]) &&
      SortedIn(Values(V, p, dim), levels[g], levels[g + 1])
    ensures Chain(lt + [|V|], |V|)
    ensures Clustered(V, p, lt + [|V|], dim + 1, tol)
  {
    assert p[..|V|] == p && p0[..|V|] == p0;
  }

  /** One turn of the loop of lines 551-573: level i refined and its openings collected. */
  method RefineAt(V: seq<Vec3>, dim: int, levels: seq<int>, iperm: array<int>, tol: real, ghost p0: seq<int>,
                  i: int, levelsTmp0: seq<int>) returns (levelsTmp: seq<int>)
    requires 0 <= dim < 3 && 0.0 <= tol && iperm.Length == |V| && |p0| == |V| && IdsIn(p0, |V|)
    requires Chain(levels, |V|) && Clustered(V, p0, levels, dim, tol) && 0 <= i < |levels| - 1
    requires IdsIn(iperm[..], |V|)
    requires Refined(V, levels, p0, iperm[..], i, levelsTmp0, dim + 1, tol)
    requires LevelsDone(V, levels, p0, iperm[..], i, dim)
    requires levelsTmp0 == Cuts(Values(V, iperm[..], dim), levels, i, tol)
    requires iperm[..] == SortLevels(V, dim, p0, levels, i)
    modifies iperm
    ensures IdsIn(iperm[..], |V|)
    ensures Refined(V, levels, p0, iperm[..], i + 1, levelsTmp, dim + 1, tol)
    ensures LevelsDone(V, levels, p0, iperm[..], i + 1, dim)
    ensures levelsTmp == Cuts(Values(V, iperm[..], dim), levels, i + 1, tol)
    ensures iperm[..] == SortLevels(V, dim, p0, levels, i + 1)
  {
    ghost var p := iperm[..];
    var starts := RefineLevel(V, dim, iperm, levels[i], levels[i + 1], tol);
    RefineStep(V, levels, p0, p, iperm[..], i, levelsTmp0, starts, dim, tol);
    LevelsDoneStep(V, levels, p0, p, iperm[..], i, dim);
    CutsStep(V, levels, p, iperm[..], i, levelsTmp0, starts, dim, tol);
    levelsTmp := levelsTmp0 + starts;
  }

  // ---------------------------------------------------------------------
  // The merged vertices

  /** No id occurs twice in 0..n-1. */
  lemma {:induction false} IotaOnce(n: nat)
    ensures forall x :: multiset(Iota(n))[x] <= 1
  {
    if n > 0 {
      IotaOnce(n - 1);
      assert Iota(n) == Iota(n - 1) + [n - 1];
      assert n - 1 !in multiset(Iota(n - 1));
    }
  }

  /** An id at two positions is counted twice. */
  lemma Twice(p: seq<int>, a: int, b: int)
    requires 0 <= a < b < |p|
    ensures p[a] == p[b] ==> multiset(p)[p[a]] >= 2
  {
    if p[a] == p[b] {
      assert p == p[..b] + [p[b]] + p[b + 1..];
      assert p[a] == p[..b][a];
    }
  }

  /** A permutation of 0..n-1 names each id in range at exactly one position. */
  lemma PermFacts(p: seq<int>, n: nat)
    requires IsPerm(p, n)
    ensures IdsIn(p, n)
    ensures forall a, b :: 0 <= a < b < n ==> p[a] != p[b]
    ensures forall i :: 0 <= i < n ==> i in p
  {
    forall k | 0 <= k < n
      ensures 0 <= p[k] < n
    {
      assert p[k] in multiset(Iota(n));
      var j :| 0 <= j < n && Iota(n)[j] == p[k];
    }
    IotaOnce(n);
    forall a, b | 0 <= a < b < n
      ensures p[a] != p[b]
    {
      Twice(p, a, b);
    }
    forall i | 0 <= i < n
      ensures i in p
    {
      assert Iota(n)[i] == i;
      assert i in multiset(p);
    }
  }

  /** Level boundaries never decrease, and there are at most n levels. */
  lemma ChainOrdered(levels: seq<int>, n: int)
    requires Chain(levels, n)
    ensures forall a, b :: 0 <= a <= b < |levels| ==> levels[a] + (b - a) <= levels[b]
    ensures |levels| - 1 <= n
  {
    forall a, b | 0 <= a <= b < |levels|
      ensures levels[a] + (b - a) <= levels[b]
    {
      var c := a;
      while c < b
        invariant a <= c <= b && levels[a] + (c - a) <= levels[c]
      {
        c := c + 1;
      }
    }
    assert levels[0] + (|levels| - 1) <= levels[|levels| - 1];
  }

  /** Every position of iperm lies in one level. */
  lemma LevelOf(levels: seq<int>, n: int, k: int) returns (g: int)
    requires Chain(levels, n) && 0 <= k < n
    ensures 0 <= g < |levels| - 1 && levels[g] <= k < levels[g + 1]
  {
    g := 0;
    while levels[g + 1] <= k
      invariant 0 <= g < |levels| - 1 && levels[g] <= k
      decreases |levels| - g
    {
      g := g + 1;
    }
  }

  /**
   * Lines 584-592: the first vertex of each level stands for it, and newID
   * sends every vertex id of the level to the level's number. The vertices
   * given one number are within 2 tol of each other in every coordinate.
   */
  method BuildMerged(V: seq<Vec3>, levels: seq<int>, iperm: seq<int>, tol: real) returns (W: seq<Vec3>, ids: seq<int>)
    requires IsPerm(iperm, |V|) && IdsIn(iperm, |V|) && Chain(levels, |V|)
    requires Clustered(V, iperm, levels, 3, tol)
    ensures |W| == |levels| - 1 && |ids| == |V| && IdsIn(ids, |W|)
    ensures forall g, k :: 0 <= g < |W| && levels[g] <= k < levels[g + 1] ==> ids[iperm[k]] == g
    ensures forall g :: 0 <= g < |W| ==> levels[g] < |V| && W[g] == V[iperm[levels[g]]]
    ensures forall g :: 0 <= g < |W| ==> StandsFor(V, ids, g, W[g])
    ensures forall i, j :: 0 <= i < |V| && 0 <= j < |V| && ids[i] == ids[j] ==> Close(V[i], V[j], tol)
    ensures forall i :: 0 <= i < |V| ==> Close(V[i], W[ids[i]], tol)
    ensures forall i, j :: 0 <= i < |V| && 0 <= j < |V| && V[i] == V[j] ==> ids[i] == ids[j]
  {
    PermFacts(iperm, |V|);
    W, ids := NumberLevels(V, levels, iperm);
    NumberedRange(|V|, levels, iperm, W, ids);
    NumberedClose(V, levels, iperm, W, ids, tol);
    NumberedRepresentatives(V, levels, iperm, W, ids, tol);
    NumberedGathered(V, levels, iperm, W, ids, tol);
  }

  /** Equal vertices lie in one gathered level, so they get one number. */
  lemma NumberedGathered(V: seq<Vec3>, levels: seq<int>, iperm: seq<int>, W: seq<Vec3>, ids: seq<int>, tol: real)
    requires IsPerm(iperm, |V|) && Numbered(|V|, levels, iperm, W, ids) && Clustered(V, iperm, levels, 3, tol)
    ensures forall i, j :: 0 <= i < |V| && 0 <= j < |V| && V[i] == V[j] ==> ids[i] == ids[j]
  {
    var nv := |V|;
    PermFacts(iperm, nv);
    forall i, j | 0 <= i < nv && 0 <= j < nv && V[i] == V[j]
      ensures ids[i] == ids[j]
    {
      assert i in iperm;
      var k :| 0 <= k < nv && iperm[k] == i;
      var g := LevelOf(levels, nv, k);
      var w := iperm[levels[g]..levels[g + 1]];
      assert w[k - levels[g]] == i;
      assert j in w;
      var k' :| 0 <= k' < |w| && w[k'] == j;
      assert iperm[levels[g] + k'] == j;
    }
  }

  /** When every level holds one vertex, gathered levels mean no two vertices are equal. */
  lemma SingletonLevels(V: seq<Vec3>, p: seq<int>, levels: seq<int>, dims: int, tol: real)
    requires IsPerm(p, |V|) && IdsIn(p, |V|) && Chain(levels, |V|) && |levels| == |V| + 1
    requires Clustered(V, p, levels, dims, tol)
    ensures forall i, j :: 0 <= i < |V| && 0 <= j < |V| && V[i] == V[j] ==> i == j
  {
    var nv := |V|;
    ChainUnits(levels, nv);
    PermFacts(p, nv);
    forall i, j | 0 <= i < nv && 0 <= j < nv && V[i] == V[j]
      ensures i == j
    {
      assert i in p;
      var k :| 0 <= k < nv && p[k] == i;
      var w := p[levels[k]..levels[k + 1]];
      assert Cluster(V, w, dims, tol);
      assert w == [i];
      assert j in w;
    }
  }

  /** A chain of n + 1 bounds from 0 to n cuts 0..n into single positions. */
  lemma ChainUnits(levels: seq<int>, n: int)
    requires Chain(levels, n) && |levels| == n + 1
    ensures forall k :: 0 <= k < |levels| ==> levels[k] == k
  {
    ChainOrdered(levels, n);
    forall k | 0 <= k < |levels|
      ensures levels[k] == k
    {
      assert levels[0] + k <= levels[k] && levels[k] + (n - k) <= levels[n];
    }
  }

  /** Before the first pass: one level holding every id, tight in no coordinate yet. */
  lemma FirstLevel(V: seq<Vec3>, tol: real)
    ensures |V| > 0 ==> Clustered(V, Iota(|V|), [0, |V|], 0, tol)
  {
    if |V| > 0 {
      var w := Iota(|V|)[0..|V|];
      forall k, j | 0 <= k < |w| && 0 <= j < |V| && V[j] == V[w[k]]
        ensures j in w
      {
        assert w[j] == j;
      }
    }
  }

  /** The loop of lines 587-591: W takes each level's first vertex, newID the level numbers. */
  method NumberLevels(V: seq<Vec3>, levels: seq<int>, iperm: seq<int>) returns (W: seq<Vec3>, ids: seq<int>)
    requires |iperm| == |V| && IdsIn(iperm, |V|) && Chain(levels, |V|)
    requires forall a, b :: 0 <= a < b < |iperm| ==> iperm[a] != iperm[b]
    ensures Numbered(|V|, levels, iperm, W, ids)
    ensures forall g :: 0 <= g < |W| ==> levels[g] < |V| && ids[iperm[levels[g]]] == g && W[g] == V[iperm[levels[g]]]
  {
    var newID := new int[|V|](i => i);
    W := [];
    var g := 0;
    while g < |levels| - 1
      invariant 0 <= g <= |levels| - 1 && |W| == g
      invariant forall h :: 0 <= h < g ==> levels[h] < |V| && W[h] == V[iperm[levels[h]]]
      invariant NumberedUpTo(levels, iperm, newID[..], g)
    {
      assert levels[g] < levels[g + 1] <= |V|;
      W := W + [V[iperm[levels[g]]]];
      ghost var before := newID[..];
      NumberLevel(newID, iperm, levels[g], levels[g + 1], g);
      NumberedStep(levels, iperm, before, newID[..], g);
      g := g + 1;
    }
    ids := newID[..];
    forall g | 0 <= g < |W|
      ensures ids[iperm[levels[g]]] == g
    {
      assert levels[g] < levels[g + 1];
    }
  }

  /** The ids of the first g levels carry their level numbers. */
  ghost predicate NumberedUpTo(levels: seq<int>, iperm: seq<int>, ids: seq<int>, g: int)
  {
    |iperm| == |ids| && IdsIn(iperm, |ids|) && Chain(levels, |ids|) && 0 <= g < |levels| &&
    forall h, k :: 0 <= h < g && levels[h] <= k < levels[h + 1] ==> ids[iperm[k]] == h
  }

  /** Numbering level g leaves the numbers of the levels before it alone. */
  lemma NumberedStep(levels: seq<int>, iperm: seq<int>, before: seq<int>, after: seq<int>, g: int)
    requires NumberedUpTo(levels, iperm, before, g) && g < |levels| - 1 && |after| == |before|
    requires forall k :: levels[g] <= k < levels[g + 1] ==> after[iperm[k]] == g
    requires forall k :: 0 <= k < |iperm| && !(levels[g] <= k < levels[g + 1]) ==> after[iperm[k]] == before[iperm[k]]
    ensures NumberedUpTo(levels, iperm, after, g + 1)
  {
    ChainOrdered(levels, |before|);
    forall h, k | 0 <= h < g + 1 && levels[h] <= k < levels[h + 1]
      ensures after[iperm[k]] == h
    {
      if h < g {
        assert levels[h + 1] <= levels[g];
      }
    }
  }

  /** `newID[iperm[range(istart, istop)]] = ilevel` (line 591). */
  method NumberLevel(newID: array<int>, iperm: seq<int>, s: int, t: int, g: int)
    requires IdsIn(iperm, newID.Length) && 0 <= s <= t <= |iperm|
    requires forall a, b :: 0 <= a < b < |iperm| ==> iperm[a] != iperm[b]
    modifies newID
    ensures forall k :: s <= k < t ==> newID[iperm[k]] == g
    ensures forall k :: 0 <= k < |iperm| && !(s <= k < t) ==> newID[iperm[k]] == old(newID[iperm[k]])
  {
    forall k | s <= k < t {
      newID[iperm[k]] := g;
    }
  }

  /** The numbering of lines 586-591 as the loop leaves it: level g's ids get number g. */
  ghost predicate Numbered(nv: nat, levels: seq<int>, iperm: seq<int>, W: seq<Vec3>, ids: seq<int>)
  {
    |ids| == nv && |W| == |levels| - 1 && NumberedUpTo(levels, iperm, ids, |W|)
  }

  /** Every vertex id gets the number of the level holding it, so numbers fall in 0..|W|-1. */
  lemma NumberedRange(nv: nat, levels: seq<int>, iperm: seq<int>, W: seq<Vec3>, ids: seq<int>)
    requires IsPerm(iperm, nv) && Numbered(nv, levels, iperm, W, ids)
    ensures IdsIn(ids, |W|)
  {
    PermFacts(iperm, nv);
    forall i | 0 <= i < nv
      ensures 0 <= ids[i] < |W|
    {
      assert i in iperm;
      var k :| 0 <= k < nv && iperm[k] == i;
      var h := LevelOf(levels, nv, k);
    }
  }

  /** Vertices given one number lie in one level, so they are within 2 tol of each other. */
  lemma NumberedClose(V: seq<Vec3>, levels: seq<int>, iperm: seq<int>, W: seq<Vec3>, ids: seq<int>, tol: real)
    requires IsPerm(iperm, |V|) && Numbered(|V|, levels, iperm, W, ids) && Clustered(V, iperm, levels, 3, tol)
    ensures forall i, j :: 0 <= i < |V| && 0 <= j < |V| && ids[i] == ids[j] ==> Close(V[i], V[j], tol)
  {
    var nv := |V|;
    PermFacts(iperm, nv);
    forall i, j | 0 <= i < nv && 0 <= j < nv && ids[i] == ids[j]
      ensures Close(V[i], V[j], tol)
    {
      assert i in iperm && j in iperm;
      var k :| 0 <= k < nv && iperm[k] == i;
      var h := LevelOf(levels, nv, k);
      var k' :| 0 <= k' < nv && iperm[k'] == j;
      var h' := LevelOf(levels, nv, k');
      SameLevelClose(V, levels, iperm, h, k, k', tol);
    }
  }

  /** w is one of the vertices given number g. */
  ghost predicate StandsFor(V: seq<Vec3>, ids: seq<int>, g: int, w: Vec3)
  {
    exists i :: 0 <= i < |V| && i < |ids| && ids[i] == g && w == V[i]
  }

  /** The vertex standing for a level is one of its own, and every vertex is close to the one standing for it. */
  lemma NumberedRepresentatives(V: seq<Vec3>, levels: seq<int>, iperm: seq<int>, W: seq<Vec3>, ids: seq<int>, tol: real)
    requires |ids| == |V| && |iperm| == |V| && IdsIn(iperm, |V|) && IdsIn(ids, |W|) && |W| < |levels|
    requires forall g :: 0 <= g < |W| ==> 0 <= levels[g] < |V| && ids[iperm[levels[g]]] == g && W[g] == V[iperm[levels[g]]]
    requires forall i, j :: 0 <= i < |V| && 0 <= j < |V| && ids[i] == ids[j] ==> Close(V[i], V[j], tol)
    ensures forall g :: 0 <= g < |W| ==> StandsFor(V, ids, g, W[g])
    ensures forall i :: 0 <= i < |V| ==> Close(V[i], W[ids[i]], tol)
  {
    forall g | 0 <= g < |W|
      ensures StandsFor(V, ids, g, W[g])
    {
      var i := iperm[levels[g]];
      assert 0 <= i < |V| && ids[i] == g && W[g] == V[i];
    }
    forall i | 0 <= i < |V|
      ensures Close(V[i], W[ids[i]], tol)
    {
      var j := iperm[levels[ids[i]]];
      assert ids[j] == ids[i] && W[ids[i]] == V[j];
    }
  }

  /** Two positions of one level hold vertices within 2 tol in every coordinate. */
  lemma SameLevelClose(V: seq<Vec3>, levels: seq<int>, p: seq<int>, g: int, k: int, k': int, tol: real)
    requires IdsIn(p, |V|) && Chain(levels, |p|) && Clustered(V, p, levels, 3, tol)
    requires 0 <= g < |levels| - 1 && levels[g] <= k < levels[g + 1] && levels[g] <= k' < levels[g + 1]
    ensures Close(V[p[k]], V[p[k']], tol)
  {
    var w := p[levels[g]..levels[g + 1]];
    assert w[k - levels[g]] == p[k] && w[k' - levels[g]] == p[k'];
  }

  // ---------------------------------------------------------------------
  // The three passes as a value

  /** iperm and the level bounds between two passes of the loop of lines 546-581. */
  datatype Sorting = Sorting(perm: seq<int>, levels: seq<int>)

  /** A state the passes can be in: iperm a permutation of the ids, cut by a chain of levels. */
  predicate SortingOf(st: Sorting, n: nat)
  {
    IsPerm(st.perm, n) && IdsIn(st.perm, n) && Chain(st.levels, n)
  }

  /**
   * One pass of lines 548-581 for coordinate dim: every level sorted by
   * that coordinate, then cut by the scan; `levels_tmp + [nv]`.
   */
  ghost function Pass(V: seq<Vec3>, dim: int, st: Sorting, tol: real): (r: Sorting)
    requires 0 <= dim < 3 && 0.0 <= tol && SortingOf(st, |V|)
    ensures SortingOf(r, |V|)
  {
    var p := SortLevels(V, dim, st.perm, st.levels, |st.levels| - 1);
    CutsChain(Values(V, p, dim), st.levels, |st.levels| - 1, tol);
    Sorting(p, Cuts(Values(V, p, dim), st.levels, |st.levels| - 1, tol) + [|V|])
  }

  /**
   * The state after the first d coordinates (lines 542-581): one level
   * holding every id to start with; once a pass leaves every level with a
   * single vertex, the loop breaks (lines 574-578) and the state stays.
   */
  ghost function Passes(V: seq<Vec3>, tol: real, d: int): (r: Sorting)
    requires 0.0 <= tol && 0 < |V| && 0 <= d <= 3
    ensures SortingOf(r, |V|)
  {
    if d == 0 then Sorting(Iota(|V|), [0, |V|])
    else
      var st := Passes(V, tol, d - 1);
      if d > 1 && |st.levels| == |V| + 1 then st else Pass(V, d - 1, st, tol)
  }

  /**
   * What merge_duplicates gives for V when its passes end in m: when every
   * level holds one vertex, V itself with every vertex its own id;
   * otherwise one vertex per level, the first of it, and every vertex id
   * the number of the level holding it.
   */
  ghost predicate MergedBy(m: Sorting, V: seq<Vec3>, W: seq<Vec3>, ids: seq<int>)
    requires SortingOf(m, |V|)
  {
    |ids| == |V| &&
    if |m.levels| == |V| + 1 then W == V && ids == Iota(|V|)
    else
      |W| == |m.levels| - 1 &&
      (forall g :: 0 <= g < |W| ==> m.levels[g] < |V| && W[g] == V[m.perm[m.levels[g]]]) &&
      forall g, k :: InLevel(m.levels, g, k) ==> k < |V| && ids[m.perm[k]] == g
  }

  /** The result of merge_duplicates for V and tol: MergedBy the state after the three passes. */
  ghost predicate MergedAs(V: seq<Vec3>, tol: real, W: seq<Vec3>, ids: seq<int>)
    requires 0.0 <= tol && 0 < |V|
  {
    MergedBy(Passes(V, tol, 3), V, W, ids)
  }

  /** Position k of iperm lies in level g. */
  predicate InLevel(levels: seq<int>, g: int, k: int)
  {
    0 <= g < |levels| - 1 && levels[g] <= k < levels[g + 1]
  }

  /** Vertices i and j are in one level of m. */
  ghost predicate InCell(m: Sorting, i: int, j: int)
  {
    exists g, k, k' :: InLevel(m.levels, g, k) && InLevel(m.levels, g, k') && 0 <= k < |m.perm| && 0 <= k' < |m.perm| &&
      m.perm[k] == i && m.perm[k'] == j
  }

  /** Vertices i and j end in one level after the three passes. */
  ghost predicate SameCell(V: seq<Vec3>, tol: real, i: int, j: int)
    requires 0.0 <= tol && 0 < |V|
  {
    InCell(Passes(V, tol, 3), i, j)
  }

  /** After a pass leaving one vertex per level, the later coordinates change nothing. */
  lemma PassesStay(V: seq<Vec3>, tol: real, d: int)
    requires 0.0 <= tol && 0 < |V| && 1 <= d <= 3 && |Passes(V, tol, d).levels| == |V| + 1
    ensures Passes(V, tol, 3) == Passes(V, tol, d)
  {
    if d < 3 {
      PassSkipped(V, tol, d);
      if d < 2 {
        PassSkipped(V, tol, d + 1);
      }
    }
  }

  /** The break of lines 574-578: with one vertex per level after pass d, pass d + 1 is not made. */
  lemma PassSkipped(V: seq<Vec3>, tol: real, d: int)
    requires 0.0 <= tol && 0 < |V| && 1 <= d < 3 && |Passes(V, tol, d).levels| == |V| + 1
    ensures Passes(V, tol, d + 1) == Passes(V, tol, d)
  {}

  /**
   * The ids of a merge are equal exactly for vertices of one level: two
   * vertices get one id if and only if they are in the same level.
   */
  lemma MergedCells(m: Sorting, V: seq<Vec3>, W: seq<Vec3>, ids: seq<int>)
    requires SortingOf(m, |V|) && MergedBy(m, V, W, ids)
    ensures forall i, j :: 0 <= i < |V| && 0 <= j < |V| ==> (ids[i] == ids[j] <==> InCell(m, i, j))
  {
    forall i, j | 0 <= i < |V| && 0 <= j < |V|
      ensures ids[i] == ids[j] <==> InCell(m, i, j)
    {
      var k := CellOf(m, |V|, i);
      var k' := CellOf(m, |V|, j);
      if |m.levels| == |V| + 1 {
        ChainUnits(m.levels, |V|);
        SingletonCells(m, |V|, i, j, k);
      } else {
        var g := LevelOf(m.levels, |V|, k);
        var g' := LevelOf(m.levels, |V|, k');
        LevelCells(m, ids, i, j, k, k', g, g');
      }
    }
  }

  /** The position of vertex i in m's iperm. */
  lemma CellOf(m: Sorting, n: nat, i: int) returns (k: int)
    requires SortingOf(m, n) && 0 <= i < n
    ensures 0 <= k < n && m.perm[k] == i
  {
    PermFacts(m.perm, n);
    assert i in m.perm;
    k :| 0 <= k < n && m.perm[k] == i;
  }

  /** With ids numbering the levels of m, two ids agree exactly within one level. */
  lemma LevelCells(m: Sorting, ids: seq<int>, i: int, j: int, k: int, k': int, g: int, g': int)
    requires forall g, k :: InLevel(m.levels, g, k) && 0 <= k < |m.perm| ==> 0 <= m.perm[k] < |ids| && ids[m.perm[k]] == g
    requires InLevel(m.levels, g, k) && 0 <= k < |m.perm| && m.perm[k] == i
    requires InLevel(m.levels, g', k') && 0 <= k' < |m.perm| && m.perm[k'] == j
    ensures 0 <= i < |ids| && 0 <= j < |ids|
    ensures ids[i] == ids[j] <==> InCell(m, i, j)
  {
    assert ids[i] == g && ids[j] == g';
    if InCell(m, i, j) {
      var h, x, x' :| InLevel(m.levels, h, x) && InLevel(m.levels, h, x') && 0 <= x < |m.perm| && 0 <= x' < |m.perm| &&
        m.perm[x] == i && m.perm[x'] == j;
      assert ids[m.perm[x]] == h && ids[m.perm[x']] == h;
    }
  }

  /** With level g holding position g alone, i and j share a level only when equal. */
  lemma SingletonCells(m: Sorting, n: nat, i: int, j: int, k: int)
    requires |m.levels| == n + 1 && |m.perm| == n && forall g :: 0 <= g < |m.levels| ==> m.levels[g] == g
    requires 0 <= k < n && m.perm[k] == i
    ensures i == j <==> InCell(m, i, j)
  {
    if InCell(m, i, j) {
      var h, x, x' :| InLevel(m.levels, h, x) && InLevel(m.levels, h, x') && 0 <= x < |m.perm| && 0 <= x' < |m.perm| &&
        m.perm[x] == i && m.perm[x'] == j;
      assert m.levels[h] == h && m.levels[h + 1] == h + 1;
    }
    if i == j {
      assert InLevel(m.levels, k, k) by { assert m.levels[k] == k && m.levels[k + 1] == k + 1; }
    }
  }

  /** The scan does not cut where every value stays within tol of the value opening the level. */
  lemma {:induction false} ScanWithinBand(vals: seq<real>, idx: int, t: int, vref: real, tol: real)
    requires 0 <= idx <= t <= |vals| && forall k :: idx <= k < t ==> Near1(vals[k], vref, tol)
    ensures Scan(vals, idx, t, vref, tol) == []
    decreases t - idx
  {
    if idx < t {
      ScanWithinBand(vals, idx + 1, t, vref, tol);
    }
  }

  /**
   * The completeness rule of lines 563-570: a level whose values all lie
   * within tol of its first value is not cut.
   */
  lemma OpeningsWithinBand(vals: seq<real>, s: int, t: int, tol: real)
    requires 0 <= s < t <= |vals| && forall k :: s <= k < t ==> Near1(vals[k], vals[s], tol)
    ensures Openings(vals, s, t, tol) == [s]
  {
    ScanWithinBand(vals, s, t, vals[s], tol);
  }

  /**
   * The scan compares with the value opening the current level, not with
   * the previous value: 0.75 is within 1 of both 0 and 1.5, yet 1.5 opens
   * a level of its own.
   */
  lemma ChainedValuesSplit()
    ensures Openings([0.0, 0.75, 1.5], 0, 3, 1.0) == [0, 2]
  {
    var vals := [0.0, 0.75, 1.5];
    assert Scan(vals, 3, 3, 1.5, 1.0) == [];
    assert Scan(vals, 2, 3, 0.0, 1.0) == [2];
  }

  /** Every two vertices are within tol of each other in every coordinate. */
  predicate AllNear(V: seq<Vec3>, tol: real)
  {
    forall i, j, dim :: 0 <= i < |V| && 0 <= j < |V| && 0 <= dim < 3 ==> Near1(Coord(V[i], dim), Coord(V[j], dim), tol)
  }

  /** Vertices all within tol of each other in every coordinate stay in one level through every pass. */
  lemma {:induction false} AllNearOneLevel(V: seq<Vec3>, tol: real, d: int)
    requires 0.0 <= tol && 0 < |V| && 0 <= d <= 3 && AllNear(V, tol)
    ensures Passes(V, tol, d).levels == [0, |V|]
  {
    if d > 0 {
      AllNearOneLevel(V, tol, d - 1);
      var st := Passes(V, tol, d - 1);
      if !(d > 1 && |st.levels| == |V| + 1) {
        PassOneLevel(V, d - 1, st, tol);
      }
    }
  }

  /** A pass over one level of vertices all within tol of each other leaves it whole. */
  lemma PassOneLevel(V: seq<Vec3>, dim: int, st: Sorting, tol: real)
    requires 0 <= dim < 3 && 0.0 <= tol && SortingOf(st, |V|) && st.levels == [0, |V|] && AllNear(V, tol)
    ensures Pass(V, dim, st, tol).levels == [0, |V|]
  {
    var p := SortLevels(V, dim, st.perm, st.levels, 1);
    var vals := Values(V, p, dim);
    forall k | 0 <= k < |V|
      ensures Near1(vals[k], vals[0], tol)
    {
      assert vals[k] == Coord(V[p[k]], dim) && vals[0] == Coord(V[p[0]], dim);
    }
    OpeningsWithinBand(vals, 0, |V|, tol);
    assert Cuts(vals, st.levels, 1, tol) == [0];
  }

  // ---------------------------------------------------------------------
  // Faces and the whole operation

  /** Renumbering by the identity leaves a row as it is. */
  lemma RenumberIdentity(row: seq<int>, n: nat)
    requires RowIn(row, n)
    ensures RenumberRow(row, Iota(n)) == row
  {
  }

  /**
   * The result of lines 574-578 when no two vertices are equal: the
   * vertices kept as they are, each standing for itself, and the faces
   * unchanged by the identity renumbering.
   */
  lemma NoMerge(V: seq<Vec3>, F: seq<seq<int>>, tol: real)
    requires ValidFaces(F, |V|) && forall i, j :: 0 <= i < |V| && 0 <= j < |V| && V[i] == V[j] ==> i == j
    ensures IdsIn(Iota(|V|), |V|)
    ensures forall i, j :: 0 <= i < |V| && 0 <= j < |V| && Iota(|V|)[i] == Iota(|V|)[j] ==> Close(V[i], V[j], tol)
    ensures forall i :: 0 <= i < |V| ==> Close(V[i], V[Iota(|V|)[i]], tol)
    ensures forall g :: 0 <= g < |V| ==> StandsFor(V, Iota(|V|), g, V[g])
    ensures forall i, j :: 0 <= i < |V| && 0 <= j < |V| && V[i] == V[j] ==> Iota(|V|)[i] == Iota(|V|)[j]
    ensures forall j :: 0 <= j < |F| ==> RowIn(F[j], |V|) && F[j] == RenumberRow(F[j], Iota(|V|))
  {
    forall g | 0 <= g < |V|
      ensures StandsFor(V, Iota(|V|), g, V[g])
    {
      assert Iota(|V|)[g] == g;
    }
    forall j | 0 <= j < |F|
      ensures F[j] == RenumberRow(F[j], Iota(|V|))
    {
      RenumberIdentity(F[j], |V|);
    }
  }

  /** Renumbering a row of valid ids by numbers below m gives a row of valid ids for m vertices. */
  lemma RenumberValid(row: seq<int>, ids: seq<int>, m: int)
    requires RowIn(row, |ids|) && IdsIn(ids, m)
    ensures RowIn(RenumberRow(row, ids), m)
  {
    var r := RenumberRow(row, ids);
    forall k | 0 <= k < 4
      ensures 1 <= r[k] <= m
    {
      assert r[k] == ids[row[k] - 1] + 1;
    }
  }

  /** Lines 594-595: `cell[:] = newID[cell - 1] + 1` for every face row, in place. */
  method RenumberFaces(F: array<seq<int>>, ids: seq<int>, m: int)
    requires ValidFaces(F[..], |ids|) && IdsIn(ids, m)
    modifies F
    ensures forall j :: 0 <= j < F.Length ==> RowIn(old(F[j]), |ids|) && F[j] == RenumberRow(old(F[j]), ids)
    ensures ValidFaces(F[..], m)
  {
    var j := 0;
    while j < F.Length
      invariant 0 <= j <= F.Length
      invariant forall q :: 0 <= q < j ==> RowIn(old(F[q]), |ids|) && F[q] == RenumberRow(old(F[q]), ids) && RowIn(F[q], m)
      invariant forall q :: j <= q < F.Length ==> F[q] == old(F[q]) && RowIn(F[q], |ids|)
    {
      RenumberValid(F[j], ids, m);
      F[j] := RenumberRow(F[j], ids);
      j := j + 1;
    }
  }

  /**
   * merge_duplicates (lines 527-603) with tol >= 0. A mesh without
   * vertices fails at `V[iperm[istart]]`. When some coordinate leaves
   * every level with one vertex, nothing is merged and V and F come back
   * as they were (lines 574-578). Otherwise every vertex gets the number
   * of its final level, the first vertex of each level stands for it, and
   * the face rows are renumbered in place: vertices given one number are
   * within 2 tol of each other in every coordinate, equal vertices always
   * get one number, and there are fewer vertices than before. In both cases
   * the result is MergedAs the state after the three passes.
   */
  method MergeDuplicates(V: seq<Vec3>, F: array<seq<int>>, tol: real) returns (r: Result<seq<Vec3>, MergeError>, ghost ids: seq<int>)
    requires 0.0 <= tol && ValidFaces(F[..], |V|)
    modifies F
    ensures r.Err? <==> |V| == 0
    ensures r.Err? ==> F[..] == old(F[..])
    ensures r.Ok? ==> |ids| == |V| && 0 < |r.value| <= |V| && IdsIn(ids, |r.value|)
    ensures r.Ok? ==> forall i, j :: 0 <= i < |V| && 0 <= j < |V| && ids[i] == ids[j] ==> Close(V[i], V[j], tol)
    ensures r.Ok? ==> forall i :: 0 <= i < |V| ==> Close(V[i], r.value[ids[i]], tol)
    ensures r.Ok? ==> forall g :: 0 <= g < |r.value| ==> StandsFor(V, ids, g, r.value[g])
    ensures r.Ok? ==> forall i, j :: 0 <= i < |V| && 0 <= j < |V| && V[i] == V[j] ==> ids[i] == ids[j]
    ensures r.Ok? ==> ValidFaces(F[..], |r.value|)
    ensures r.Ok? ==> forall j :: 0 <= j < F.Length ==> RowIn(old(F[j]), |ids|) && F[j] == RenumberRow(old(F[j]), ids)
    ensures r.Ok? && |r.value| == |V| ==> r.value == V && ids == Iota(|V|) && F[..] == old(F[..])
    ensures r.Ok? ==> MergedAs(V, tol, r.value, ids)
    ensures r.Ok? ==> forall i, j :: 0 <= i < |V| && 0 <= j < |V| ==> (ids[i] == ids[j] <==> SameCell(V, tol, i, j))
    ensures r.Ok? && AllNear(V, tol) ==> |r.value| == 1 && forall i :: 0 <= i < |V| ==> ids[i] == 0
  {
    var nv := |V|;
    if nv == 0 {
      r, ids := Err(NoVertex), [];
      return;
    }
    var broke, perm, levels := SortPasses(V, tol);
    if broke {
      NoMerge(V, F[..], tol);
      r, ids := Ok(V), Iota(nv);
      MergedFacts(V, tol, r.value, ids);
      return;
    }
    ChainOrdered(levels, nv);
    var W, newIds := BuildMerged(V, levels, perm, tol);
    RenumberFaces(F, newIds, |W|);
    r, ids := Ok(W), newIds;
    MergedBuilt(V, tol, perm, levels, W, ids);
    MergedFacts(V, tol, r.value, ids);
  }

  /** The vertices and ids numbered from the final levels are the merge MergedAs describes. */
  lemma MergedBuilt(V: seq<Vec3>, tol: real, perm: seq<int>, levels: seq<int>, W: seq<Vec3>, ids: seq<int>)
    requires 0.0 <= tol && 0 < |V| && Passes(V, tol, 3) == Sorting(perm, levels) && |levels| != |V| + 1
    requires |W| == |levels| - 1 && |ids| == |V|
    requires forall g, k :: 0 <= g < |W| && levels[g] <= k < levels[g + 1] ==> ids[perm[k]] == g
    requires forall g :: 0 <= g < |W| ==> levels[g] < |V| && W[g] == V[perm[levels[g]]]
    ensures MergedAs(V, tol, W, ids)
  {
    ChainOrdered(levels, |V|);
  }

  /**
   * The loop of lines 545-579: one pass per coordinate, breaking out
   * (`broke`) when a pass leaves one vertex per level; perm is iperm and
   * levels the level bounds when the loop ends.
   */
  method SortPasses(V: seq<Vec3>, tol: real) returns (broke: bool, perm: seq<int>, levels: seq<int>)
    requires 0.0 <= tol && 0 < |V|
    ensures IsPerm(perm, |V|) && IdsIn(perm, |V|) && Chain(levels, |V|)
    ensures Passes(V, tol, 3) == Sorting(perm, levels)
    ensures broke <==> |levels| == |V| + 1
    ensures broke ==> forall i, j :: 0 <= i < |V| && 0 <= j < |V| && V[i] == V[j] ==> i == j
    ensures !broke ==> Clustered(V, perm, levels, 3, tol)
  {
    var nv := |V|;
    levels := [0, nv];
    var iperm := new int[nv](i => i);
    assert iperm[..] == Iota(nv);
    FirstLevel(V, tol);
    var dim := 0;
    while dim < 3
      invariant 0 <= dim <= 3 && iperm.Length == nv
      invariant IsPerm(iperm[..], nv) && IdsIn(iperm[..], nv) && Chain(levels, nv)
      invariant Clustered(V, iperm[..], levels, dim, tol)
      invariant dim > 0 ==> |levels| - 1 != nv
      invariant Passes(V, tol, dim) == Sorting(iperm[..], levels)
    {
      ghost var st := Sorting(iperm[..], levels);
      var levelsTmp := RefineLevels(V, dim, levels, iperm, tol);
      PassIs(V, dim, st, tol, iperm[..], levelsTmp);
      PassesNext(V, tol, dim, st);
      if |levelsTmp| == nv {
        SingletonLevels(V, iperm[..], levelsTmp + [nv], dim + 1, tol);
        PassesStay(V, tol, dim + 1);
        broke, perm, levels := true, iperm[..], levelsTmp + [nv];
        return;
      }
      levels := levelsTmp + [nv];
      dim := dim + 1;
    }
    broke, perm := false, iperm[..];
  }

  /** The pass that RefineLevels makes on st, as a value. */
  lemma PassIs(V: seq<Vec3>, dim: int, st: Sorting, tol: real, p: seq<int>, levelsTmp: seq<int>)
    requires 0 <= dim < 3 && 0.0 <= tol && SortingOf(st, |V|) && IdsIn(p, |V|)
    requires p == SortLevels(V, dim, st.perm, st.levels, |st.levels| - 1)
    requires levelsTmp == Cuts(Values(V, p, dim), st.levels, |st.levels| - 1, tol)
    ensures Pass(V, dim, st, tol) == Sorting(p, levelsTmp + [|V|])
  {}

  /** The loop goes on to the next coordinate unless an earlier pass left one vertex per level. */
  lemma PassesNext(V: seq<Vec3>, tol: real, dim: int, st: Sorting)
    requires 0.0 <= tol && 0 < |V| && 0 <= dim < 3 && Passes(V, tol, dim) == st
    requires dim > 0 ==> |st.levels| - 1 != |V|
    ensures Passes(V, tol, dim + 1) == Pass(V, dim, st, tol)
  {}

  /** MergedAs, with the cells it gives and the single cell of vertices all within tol. */
  lemma MergedFacts(V: seq<Vec3>, tol: real, W: seq<Vec3>, ids: seq<int>)
    requires 0.0 <= tol && 0 < |V| && MergedAs(V, tol, W, ids)
    ensures forall i, j :: 0 <= i < |V| && 0 <= j < |V| ==> (ids[i] == ids[j] <==> SameCell(V, tol, i, j))
    ensures AllNear(V, tol) ==> |W| == 1 && forall i :: 0 <= i < |V| ==> ids[i] == 0
  {
    var m := Passes(V, tol, 3);
    MergedCells(m, V, W, ids);
    if AllNear(V, tol) {
      AllNearOneLevel(V, tol, 3);
      forall i | 0 <= i < |V|
        ensures ids[i] == 0
      {
        var k := CellOf(m, |V|, i);
        assert InLevel(m.levels, 0, k);
      }
    }
  }
}
