/** Three-component real vectors: the rows of the vertex array V. */
module Geometry {

  datatype Vec3 = Vec3(x: real, y: real, z: real)

  function Dot(a: Vec3, b: Vec3): real {
    a.x * b.x + a.y * b.y + a.z * b.z
  }

  function Add(a: Vec3, b: Vec3): Vec3 {
    Vec3(a.x + b.x, a.y + b.y, a.z + b.z)
  }

  function Sub(a: Vec3, b: Vec3): Vec3 {
    Vec3(a.x - b.x, a.y - b.y, a.z - b.z)
  }

  function Scale(s: real, a: Vec3): Vec3 {
    Vec3(s * a.x, s * a.y, s * a.z)
  }

  function Neg(a: Vec3): Vec3 {
    Vec3(-a.x, -a.y, -a.z)
  }

  /** Component of a vector selected by a column number 0, 1 or 2. */
  function Coord(a: Vec3, j: int): real
    requires 0 <= j < 3
  {
    if j == 0 then a.x else if j == 1 then a.y else a.z
  }

  /** Dot product distributes over a combination `a + s (b - a)`. */
  lemma DotLerp(n: Vec3, a: Vec3, b: Vec3, s: real)
    ensures Dot(n, Add(a, Scale(s, Sub(b, a)))) == Dot(n, a) + s * (Dot(n, b) - Dot(n, a))
  {
  }

  /** Cancellation of a non-zero real factor. */
  lemma Cancel(a: real, b: real, k: real)
    requires k != 0.0 && a * k == b * k
    ensures a == b
  {
    calc {
      a;
      (a * k) / k;
      (b * k) / k;
      b;
    }
  }
}
