/** The vector kernel of helper.js: gl-matrix's `vec3` operations as
    functions on an immutable three-component value. Every operation builds
    a new value, so its arguments are never changed. */
module Vectors {

  datatype Vec3 = Vec3(x: real, y: real, z: real)

  const Zero := Vec3(0.0, 0.0, 0.0)

  /** `add`; subtracting b from the sum gives a back. */
  function Add(a: Vec3, b: Vec3): (r: Vec3)
    ensures Subtract(r, b) == a
  {
    Vec3(a.x + b.x, a.y + b.y, a.z + b.z)
  }

  /** `subtract`; the difference is zero exactly when the vectors are equal. */
  function Subtract(a: Vec3, b: Vec3): (r: Vec3)
    ensures r == Zero <==> a == b
  {
    Vec3(a.x - b.x, a.y - b.y, a.z - b.z)
  }

  function Scale(v: Vec3, s: real): Vec3
  {
    Vec3(v.x * s, v.y * s, v.z * s)
  }

  function Dot(a: Vec3, b: Vec3): real
  {
    a.x * b.x + a.y * b.y + a.z * b.z
  }

  /** Subtraction is the inverse of addition, in both orders. */
  lemma SubtractUndoesAdd(a: Vec3, b: Vec3)
    ensures Subtract(Add(a, b), b) == a
    ensures Add(Subtract(a, b), b) == a
    ensures Subtract(a, a) == Zero
  {
  }

  lemma AddCommutes(a: Vec3, b: Vec3)
    ensures Add(a, b) == Add(b, a)
    ensures Add(a, Zero) == a
  {
  }

  /** Scaling by one is the identity, by zero gives the zero vector, and
      two scalings compose by multiplying the factors. */
  lemma ScaleLaws(v: Vec3, s: real, t: real)
    ensures Scale(v, 1.0) == v
    ensures Scale(v, 0.0) == Zero
    ensures Scale(Scale(v, s), t) == Scale(v, s * t)
  {
  }

  lemma DotSymmetric(a: Vec3, b: Vec3)
    ensures Dot(a, b) == Dot(b, a)
  {
  }

  /** The dot product is linear in its first argument (and, by symmetry, in its second). */
  lemma DotLinear(a: Vec3, b: Vec3, c: Vec3, s: real)
    ensures Dot(Add(a, b), c) == Dot(a, c) + Dot(b, c)
    ensures Dot(Subtract(a, b), c) == Dot(a, c) - Dot(b, c)
    ensures Dot(Scale(a, s), c) == s * Dot(a, c)
    ensures Dot(c, Scale(a, s)) == s * Dot(c, a)
  {
  }

  /** The square of a sum, |u + w|^2 = |u|^2 + 2 u.w + |w|^2. */
  lemma DotOfSum(u: Vec3, w: Vec3)
    ensures Dot(Add(u, w), Add(u, w)) == Dot(u, u) + 2.0 * Dot(u, w) + Dot(w, w)
  {
  }

  /** A vector's dot product with itself is never negative. */
  lemma DotSelfNonNegative(v: Vec3)
    ensures Dot(v, v) >= 0.0
  {
  }
}
