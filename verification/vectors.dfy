/** Three-component vectors over exact reals, with the few operations the
    camera controller uses. */
module Vectors {

  datatype Vec3 = Vec3(x: real, y: real, z: real)

  function Add(a: Vec3, b: Vec3): Vec3 {
    Vec3(a.x + b.x, a.y + b.y, a.z + b.z)
  }

  function Sub(a: Vec3, b: Vec3): Vec3 {
    Vec3(a.x - b.x, a.y - b.y, a.z - b.z)
  }

  function Scale(a: Vec3, k: real): Vec3 {
    Vec3(a.x * k, a.y * k, a.z * k)
  }

  lemma ScaleTwice(a: Vec3, j: real, k: real)
    ensures Scale(Scale(a, j), k) == Scale(a, j * k)
  {
  }

  /** `Vector3.lerp`: move `a` the fraction `alpha` of the way to `b`, so
      the remaining gap is the fraction `1 - alpha` of the old one. */
  function Lerp(a: Vec3, b: Vec3, alpha: real): (r: Vec3)
    ensures Sub(b, r) == Scale(Sub(b, a), 1.0 - alpha)
    ensures alpha == 0.0 ==> r == a
    ensures alpha == 1.0 ==> r == b
  {
    Vec3(a.x + (b.x - a.x) * alpha, a.y + (b.y - a.y) * alpha, a.z + (b.z - a.z) * alpha)
  }

  /** Squared Euclidean distance; `distanceTo(b) < t` is `DistSq < t * t`
      for a non-negative tolerance `t`. */
  function DistSq(a: Vec3, b: Vec3): (d: real)
    ensures d >= 0.0
    ensures a == b ==> d == 0.0
  {
    (a.x - b.x) * (a.x - b.x) + (a.y - b.y) * (a.y - b.y) + (a.z - b.z) * (a.z - b.z)
  }

  /** The squared distance to `b` after a lerp shrinks by `(1 - alpha)^2`. */
  lemma LerpDistSq(a: Vec3, b: Vec3, alpha: real)
    ensures DistSq(Lerp(a, b, alpha), b) == (1.0 - alpha) * (1.0 - alpha) * DistSq(a, b)
  {
  }
}
