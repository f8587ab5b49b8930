/**
 * Free vectors of 3D space (`Trace.Geometry.Vec`), over exact reals.
 * The C# struct stores `float`s; rounding is not modelled.
 */
module Vectors {
  datatype Vec = Vec(X: real, Y: real, Z: real)

  /** The tolerance `is_close` uses when none is given. */
  const DefaultEpsilon: real := 0.00001

  function Abs(x: real): (r: real)
    ensures r >= 0.0 && (r == x || r == -x)
  {
    if x < 0.0 then -x else x
  }

  /** All three components differ by strictly less than `epsilon`. */
  predicate IsClose(v: Vec, u: Vec, epsilon: real) {
    Abs(v.X - u.X) < epsilon && Abs(v.Y - u.Y) < epsilon && Abs(v.Z - u.Z) < epsilon
  }

  function Add(v: Vec, u: Vec): Vec {
    Vec(v.X + u.X, v.Y + u.Y, v.Z + u.Z)
  }

  function Sub(v: Vec, u: Vec): Vec {
    Vec(v.X - u.X, v.Y - u.Y, v.Z - u.Z)
  }

  /** `v * alpha`. */
  function Scale(v: Vec, alpha: real): Vec {
    Vec(v.X * alpha, v.Y * alpha, v.Z * alpha)
  }

  /** `alpha * v`: the second overload, which computes the same components. */
  function ScaleLeft(alpha: real, v: Vec): Vec {
    Vec(v.X * alpha, v.Y * alpha, v.Z * alpha)
  }

  function Neg(v: Vec): Vec {
    Vec(-v.X, -v.Y, -v.Z)
  }

  /** The scalar product `v * u`. */
  function Dot(v: Vec, u: Vec): real {
    v.X * u.X + v.Y * u.Y + v.Z * u.Z
  }

  /** `v.vec_prod(u)`: the cross product, perpendicular to both operands. */
  function Cross(v: Vec, u: Vec): (r: Vec)
    ensures Dot(r, v) == 0.0 && Dot(r, u) == 0.0
  {
    Vec(v.Y * u.Z - v.Z * u.Y, v.Z * u.X - v.X * u.Z, v.X * u.Y - v.Y * u.X)
  }

  function SquaredNorm(v: Vec): (r: real)
    ensures r >= 0.0
  {
    SquareFacts(v.X); SquareFacts(v.Y); SquareFacts(v.Z);
    v.X * v.X + v.Y * v.Y + v.Z * v.Z
  }

  lemma SquareFacts(x: real)
    ensures x * x >= 0.0
  {
    if x < 0.0 {
      assert x * x == (-x) * (-x);
    }
  }

  lemma IsCloseReflexive(v: Vec, epsilon: real)
    requires epsilon > 0.0
    ensures IsClose(v, v, epsilon)
  {
  }

  lemma AddSubRoundTrip(a: Vec, b: Vec)
    ensures Sub(Add(a, b), b) == a
    ensures Add(Sub(a, b), b) == a
  {
  }

  lemma AddCommutative(a: Vec, b: Vec)
    ensures Add(a, b) == Add(b, a)
  {
  }

  lemma ScaleSidesAgree(v: Vec, alpha: real)
    ensures Scale(v, alpha) == ScaleLeft(alpha, v)
  {
  }

  lemma NegProperties(v: Vec)
    ensures Neg(Neg(v)) == v
    ensures Neg(v) == Scale(v, -1.0)
    ensures Add(v, Neg(v)) == Vec(0.0, 0.0, 0.0)
  {
  }

  lemma DotProperties(v: Vec, u: Vec)
    ensures Dot(v, u) == Dot(u, v)
    ensures Dot(v, v) == SquaredNorm(v)
  {
  }

  lemma CrossAnticommutative(v: Vec, u: Vec)
    ensures Cross(v, u) == Neg(Cross(u, v))
    ensures Cross(v, v) == Vec(0.0, 0.0, 0.0)
  {
  }

  /** The vector arithmetic pinned in the geometry tests, on a = (1, 2, 3) and b = (4, 6, 8). */
  lemma VecExample()
    ensures IsClose(Vec(1.0, 2.0, 3.0), Vec(1.0, 2.0, 3.0), DefaultEpsilon)
    ensures !IsClose(Vec(1.0, 2.0, 3.0), Vec(4.0, 6.0, 8.0), DefaultEpsilon)
    ensures Neg(Vec(1.0, 2.0, 3.0)) == Vec(-1.0, -2.0, -3.0)
    ensures Add(Vec(1.0, 2.0, 3.0), Vec(4.0, 6.0, 8.0)) == Vec(5.0, 8.0, 11.0)
    ensures Sub(Vec(4.0, 6.0, 8.0), Vec(1.0, 2.0, 3.0)) == Vec(3.0, 4.0, 5.0)
    ensures Scale(Vec(1.0, 2.0, 3.0), 2.0) == Vec(2.0, 4.0, 6.0)
    ensures Dot(Vec(1.0, 2.0, 3.0), Vec(4.0, 6.0, 8.0)) == 40.0
    ensures Cross(Vec(1.0, 2.0, 3.0), Vec(4.0, 6.0, 8.0)) == Vec(-2.0, 4.0, -2.0)
    ensures Cross(Vec(4.0, 6.0, 8.0), Vec(1.0, 2.0, 3.0)) == Vec(2.0, -4.0, 2.0)
    ensures SquaredNorm(Vec(1.0, 2.0, 3.0)) == 14.0
  {
    assert Dot(Vec(1.0, 2.0, 3.0), Vec(4.0, 6.0, 8.0)) == 1.0 * 4.0 + 2.0 * 6.0 + 3.0 * 8.0;
    assert Cross(Vec(1.0, 2.0, 3.0), Vec(4.0, 6.0, 8.0))
      == Vec(2.0 * 8.0 - 3.0 * 6.0, 3.0 * 4.0 - 1.0 * 8.0, 1.0 * 6.0 - 2.0 * 4.0);
    assert Cross(Vec(4.0, 6.0, 8.0), Vec(1.0, 2.0, 3.0))
      == Vec(6.0 * 3.0 - 8.0 * 2.0, 8.0 * 1.0 - 4.0 * 3.0, 4.0 * 2.0 - 6.0 * 1.0);
    assert SquaredNorm(Vec(1.0, 2.0, 3.0)) == 1.0 * 1.0 + 2.0 * 2.0 + 3.0 * 3.0;
    assert Scale(Vec(1.0, 2.0, 3.0), 2.0) == Vec(1.0 * 2.0, 2.0 * 2.0, 3.0 * 2.0);
  }
}
