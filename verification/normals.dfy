/** Surface normals (`Trace.Geometry.Normal`), over exact reals. */
module Normals {
  import opened Vectors

  datatype Normal = Normal(X: real, Y: real, Z: real)

  /**
   * The default tolerance of `Normal.is_close`: written `10-5` in the source,
   * an integer subtraction, so it is 5 and not 1e-5 as for the other types.
   */
  const DefaultEpsilon: real := (10 - 5) as real

  /** `is_close` compares the components as `Vec.is_close` does. */
  predicate IsClose(n: Normal, m: Normal, epsilon: real) {
    Vectors.IsClose(AsVec(n), AsVec(m), epsilon)
  }

  /**
   * `is_close` holds between a normal and itself for any positive tolerance, does not
   * depend on the order of its operands, and fails as soon as one coordinate differs
   * by the tolerance or more.
   */
  lemma IsCloseProperties(n: Normal, m: Normal, epsilon: real)
    ensures epsilon > 0.0 ==> IsClose(n, n, epsilon)
    ensures IsClose(n, m, epsilon) ==> IsClose(m, n, epsilon)
    ensures Abs(n.X - m.X) >= epsilon || Abs(n.Y - m.Y) >= epsilon || Abs(n.Z - m.Z) >= epsilon
            ==> !IsClose(n, m, epsilon)
  {
  }

  /** `Vec.to_normal`: the same coordinates read as a normal. */
  function FromVec(v: Vec): Normal {
    Normal(v.X, v.Y, v.Z)
  }

  function AsVec(n: Normal): (r: Vec)
    ensures FromVec(r) == n
  {
    Vec(n.X, n.Y, n.Z)
  }

  function Neg(n: Normal): Normal {
    Normal(-n.X, -n.Y, -n.Z)
  }

  /** `a * n`. */
  function ScaleLeft(a: real, n: Normal): Normal {
    Normal(a * n.X, a * n.Y, a * n.Z)
  }

  /** `n * a`. */
  function Scale(n: Normal, a: real): Normal {
    Normal(a * n.X, a * n.Y, a * n.Z)
  }

  /** `n * m`, the scalar product of two normals. */
  function Dot(n: Normal, m: Normal): real {
    n.X * m.X + n.Y * m.Y + n.Z * m.Z
  }

  /** The scalar product of a normal with a vector, as used by the shapes. */
  function DotVec(n: Normal, v: Vec): (r: real)
    ensures r == Vectors.Dot(AsVec(n), v)
  {
    n.X * v.X + n.Y * v.Y + n.Z * v.Z
  }

  /** `n.vec_prod(v)`: cross product with a vector, returned as a vector. */
  function CrossVec(n: Normal, v: Vec): (r: Vec)
    ensures Vectors.Dot(r, v) == 0.0 && Vectors.Dot(r, AsVec(n)) == 0.0
  {
    Vec(n.Y * v.Z - n.Z * v.Y, n.Z * v.X - n.X * v.Z, n.X * v.Y - n.Y * v.X)
  }

  /** `n.vec_prod(m)`: cross product with a normal, returned as a vector. */
  function CrossNormal(n: Normal, m: Normal): (r: Vec)
    ensures Vectors.Dot(r, AsVec(n)) == 0.0 && Vectors.Dot(r, AsVec(m)) == 0.0
  {
    Vec(n.Y * m.Z - n.Z * m.Y, n.Z * m.X - n.X * m.Z, n.X * m.Y - n.Y * m.X)
  }

  /** `squared_norm`, the same sum of squares as for the vector with these components. */
  function SquaredNorm(n: Normal): (r: real)
    ensures r >= 0.0
  {
    Vectors.SquaredNorm(AsVec(n))
  }

  lemma NegInvolution(n: Normal)
    ensures Neg(Neg(n)) == n
    ensures Neg(n) == Scale(n, -1.0)
  {
  }

  lemma ScaleSidesAgree(n: Normal, a: real)
    ensures Scale(n, a) == ScaleLeft(a, n)
  {
  }

  lemma DotProperties(n: Normal, m: Normal)
    ensures Dot(n, m) == Dot(m, n)
    ensures Dot(n, n) == SquaredNorm(n)
  {
  }

  /** Both cross products of a normal compute the vector cross product of the same coordinates. */
  lemma CrossProductsAgree(n: Normal, m: Normal)
    ensures CrossNormal(n, m) == CrossVec(n, AsVec(m)) == Vectors.Cross(AsVec(n), AsVec(m))
  {
    var a, b := Vec(n.X, n.Y, n.Z), Vec(m.X, m.Y, m.Z);
    assert AsVec(n) == a && AsVec(m) == b;
    var c := Vec(n.Y * m.Z - n.Z * m.Y, n.Z * m.X - n.X * m.Z, n.X * m.Y - n.Y * m.X);
    assert CrossNormal(n, m) == c;
    assert CrossVec(n, b) == c;
    assert Vectors.Cross(a, b) == c;
  }

  /** The cross product of two normals changes sign when they are swapped. */
  lemma CrossNormalAnticommutes(n: Normal, m: Normal)
    ensures CrossNormal(n, m) == Vectors.Neg(CrossNormal(m, n))
  {
    assert CrossNormal(m, n) == Vec(m.Y * n.Z - m.Z * n.Y, m.Z * n.X - m.X * n.Z, m.X * n.Y - m.Y * n.X);
  }

  /** So does the cross product of a normal with a vector. */
  lemma CrossVecAnticommutes(n: Normal, v: Vec)
    ensures CrossVec(n, v) == Vectors.Neg(CrossVec(FromVec(v), AsVec(n)))
  {
    var w := FromVec(v);
    assert AsVec(n) == Vec(n.X, n.Y, n.Z);
    assert CrossVec(w, AsVec(n)) == Vec(v.Y * n.Z - v.Z * n.Y, v.Z * n.X - v.X * n.Z, v.X * n.Y - v.Y * n.X);
  }

  /** With the default tolerance of 5, normals far apart in the usual sense are still "close". */
  lemma DefaultEpsilonIsFive()
    ensures DefaultEpsilon == 5.0
    ensures IsClose(Normal(0.0, 0.0, 1.0), Normal(0.0, 0.0, -1.0), DefaultEpsilon)
  {
  }
}
