/**
 * Mesh encoding of meshmagick.py: a vertex array V (one Vec3 per row) and a
 * face array F of 4-slot rows holding 1-based vertex ids. A triangle repeats
 * its first id in the fourth slot.
 */
module Mesh {
  import opened Geometry

  /** A row of F: four slots. */
  predicate IsRow(f: seq<int>) { |f| == 4 }

  /** A row of four slots each naming one of nv vertices (ids start at 1). */
  predicate RowIn(f: seq<int>, nv: int) {
    IsRow(f) && forall k :: 0 <= k < 4 ==> 1 <= f[k] <= nv
  }

  /** Every row has four slots and every id names a vertex. */
  predicate ValidFaces(F: seq<seq<int>>, nv: int) {
    forall i :: 0 <= i < |F| ==> RowIn(F[i], nv)
  }

  /** `F[:,0] == F[:,-1]`: the row encodes a triangle. */
  predicate IsTriangle(f: seq<int>)
    requires IsRow(f)
  {
    f[0] == f[3]
  }

  /**
   * Number of slots a row uses: 3 when its fourth slot repeats its first
   * (a triangle), 4 otherwise. Only those two slots are compared.
   */
  function FaceSize(f: seq<int>): (n: int)
    requires IsRow(f)
    ensures n == 3 || n == 4
    ensures n == 3 <==> f[0] == f[3]
  {
    if IsTriangle(f) then 3 else 4
  }

  /** Reversal of a row, `np.flipud` of one row. */
  function Reverse(f: seq<int>): (r: seq<int>)
    ensures |r| == |f|
    ensures forall k :: 0 <= k < |f| ==> r[k] == f[|f| - 1 - k]
  {
    seq(|f|, k requires 0 <= k < |f| => f[|f| - 1 - k])
  }
}
