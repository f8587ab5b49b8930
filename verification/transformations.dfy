/**
 * Affine transformations (`Trace.Geometry.Transformation`): a 4x4 matrix together
 * with the matrix its author claims is its inverse, over exact reals.
 * Matrices follow `System.Numerics.Matrix4x4`: sixteen entries `M11` … `M44`,
 * row by row, and the product `Matrix4x4.Multiply`, row times column.
 */
module Transformations {
  import opened Vectors
  import opened Points
  import opened Normals

  datatype Matrix4x4 = Matrix4x4(
    M11: real, M12: real, M13: real, M14: real,
    M21: real, M22: real, M23: real, M24: real,
    M31: real, M32: real, M33: real, M34: real,
    M41: real, M42: real, M43: real, M44: real)

  /** The sum of the products of two quadruples: a row of one matrix times a column of another. */
  function Dot4(x1: real, x2: real, x3: real, x4: real, y1: real, y2: real, y3: real, y4: real): real {
    x1 * y1 + x2 * y2 + x3 * y3 + x4 * y4
  }

  /** `Matrix4x4.Multiply(a, b)`: entry (i, j) is row i of `a` times column j of `b`. */
  function Multiply(a: Matrix4x4, b: Matrix4x4): Matrix4x4 {
    Matrix4x4(
      Dot4(a.M11, a.M12, a.M13, a.M14, b.M11, b.M21, b.M31, b.M41),
      Dot4(a.M11, a.M12, a.M13, a.M14, b.M12, b.M22, b.M32, b.M42),
      Dot4(a.M11, a.M12, a.M13, a.M14, b.M13, b.M23, b.M33, b.M43),
      Dot4(a.M11, a.M12, a.M13, a.M14, b.M14, b.M24, b.M34, b.M44),
      Dot4(a.M21, a.M22, a.M23, a.M24, b.M11, b.M21, b.M31, b.M41),
      Dot4(a.M21, a.M22, a.M23, a.M24, b.M12, b.M22, b.M32, b.M42),
      Dot4(a.M21, a.M22, a.M23, a.M24, b.M13, b.M23, b.M33, b.M43),
      Dot4(a.M21, a.M22, a.M23, a.M24, b.M14, b.M24, b.M34, b.M44),
      Dot4(a.M31, a.M32, a.M33, a.M34, b.M11, b.M21, b.M31, b.M41),
      Dot4(a.M31, a.M32, a.M33, a.M34, b.M12, b.M22, b.M32, b.M42),
      Dot4(a.M31, a.M32, a.M33, a.M34, b.M13, b.M23, b.M33, b.M43),
      Dot4(a.M31, a.M32, a.M33, a.M34, b.M14, b.M24, b.M34, b.M44),
      Dot4(a.M41, a.M42, a.M43, a.M44, b.M11, b.M21, b.M31, b.M41),
      Dot4(a.M41, a.M42, a.M43, a.M44, b.M12, b.M22, b.M32, b.M42),
      Dot4(a.M41, a.M42, a.M43, a.M44, b.M13, b.M23, b.M33, b.M43),
      Dot4(a.M41, a.M42, a.M43, a.M44, b.M14, b.M24, b.M34, b.M44))
  }

  const Identity: Matrix4x4 := Matrix4x4(
    1.0, 0.0, 0.0, 0.0,
    0.0, 1.0, 0.0, 0.0,
    0.0, 0.0, 1.0, 0.0,
    0.0, 0.0, 0.0, 1.0)

  /** A matrix whose last row is (0, 0, 0, 1): it maps points with w = 1 to points with w = 1. */
  predicate IsAffine(m: Matrix4x4) {
    m.M41 == 0.0 && m.M42 == 0.0 && m.M43 == 0.0 && m.M44 == 1.0
  }

  /**
   * `are_matr_close`: every pair of entries differs by at most `epsilon`
   * (the loop rejects only a difference strictly greater than `epsilon`).
   */
  predicate AreMatricesClose(ma: Matrix4x4, mb: Matrix4x4, epsilon: real) {
    forall k :: 0 <= k < 16 ==> Vectors.Abs(Entries(ma)[k] - Entries(mb)[k]) <= epsilon
  }

  /** The sixteen entries row by row, in the order `are_matr_close` visits the fields. */
  function Entries(m: Matrix4x4): (r: seq<real>)
    ensures |r| == 16 && r[0] == m.M11 && r[5] == m.M22 && r[10] == m.M33 && r[15] == m.M44
  {
    [m.M11, m.M12, m.M13, m.M14, m.M21, m.M22, m.M23, m.M24,
     m.M31, m.M32, m.M33, m.M34, m.M41, m.M42, m.M43, m.M44]
  }

  datatype Transformation = Transformation(M: Matrix4x4, InvM: Matrix4x4)

  /** The parameterless constructor. */
  function IdentityTransformation(): (t: Transformation)
    ensures t.M == Identity && t.InvM == Identity
  {
    Transformation(Identity, Identity)
  }

  predicate IsClose(t: Transformation, u: Transformation, epsilon: real) {
    AreMatricesClose(t.M, u.M, epsilon) && AreMatricesClose(t.InvM, u.InvM, epsilon)
  }

  /**
   * `is_close` holds between a transformation and itself, is symmetric, and fails once
   * any entry of `M` or of `InvM` is more than `epsilon` off.
   */
  lemma IsCloseProperties(t: Transformation, u: Transformation, epsilon: real)
    ensures epsilon >= 0.0 ==> IsClose(t, t, epsilon)
    ensures IsClose(t, u, epsilon) ==> IsClose(u, t, epsilon)
    ensures Vectors.Abs(t.M.M11 - u.M.M11) > epsilon ==> !IsClose(t, u, epsilon)
    ensures (exists k :: 0 <= k < 16 && (Vectors.Abs(Entries(t.M)[k] - Entries(u.M)[k]) > epsilon
                                        || Vectors.Abs(Entries(t.InvM)[k] - Entries(u.InvM)[k]) > epsilon))
            ==> !IsClose(t, u, epsilon)
  {
    var a, b, ai, bi := Entries(t.M), Entries(u.M), Entries(t.InvM), Entries(u.InvM);
    if IsClose(t, u, epsilon) {
      assert Vectors.Abs(a[0] - b[0]) <= epsilon;
      forall k | 0 <= k < 16
        ensures Vectors.Abs(b[k] - a[k]) <= epsilon && Vectors.Abs(bi[k] - ai[k]) <= epsilon
      {
        assert Vectors.Abs(a[k] - b[k]) <= epsilon && Vectors.Abs(ai[k] - bi[k]) <= epsilon;
      }
    }
  }

  /** `is_consistent`: `M` times `InvM` is the identity up to `epsilon`. */
  predicate IsConsistent(t: Transformation, epsilon: real) {
    AreMatricesClose(Multiply(t.M, t.InvM), Identity, epsilon)
  }

  /** Over reals, consistency can be asked for without tolerance. */
  predicate IsExactlyConsistent(t: Transformation) {
    Multiply(t.M, t.InvM) == Identity
  }

  /** `InvM` is a two-sided inverse of `M`. */
  predicate IsInvertible(t: Transformation) {
    Multiply(t.M, t.InvM) == Identity && Multiply(t.InvM, t.M) == Identity
  }

  function Translation(v: Vec): (t: Transformation)
    ensures IsAffine(t.M) && IsAffine(t.InvM)
  {
    Transformation(
      Matrix4x4(
        1.0, 0.0, 0.0, v.X,
        0.0, 1.0, 0.0, v.Y,
        0.0, 0.0, 1.0, v.Z,
        0.0, 0.0, 0.0, 1.0),
      Matrix4x4(
        1.0, 0.0, 0.0, -v.X,
        0.0, 1.0, 0.0, -v.Y,
        0.0, 0.0, 1.0, -v.Z,
        0.0, 0.0, 0.0, 1.0))
  }

  /** A scale factor of zero would make the source store infinities in `InvM`. */
  predicate NonZeroComponents(v: Vec) {
    v.X != 0.0 && v.Y != 0.0 && v.Z != 0.0
  }

  function Scaling(v: Vec): (t: Transformation)
    requires NonZeroComponents(v)
    ensures IsAffine(t.M) && IsAffine(t.InvM)
  {
    Transformation(
      Matrix4x4(
        v.X, 0.0, 0.0, 0.0,
        0.0, v.Y, 0.0, 0.0,
        0.0, 0.0, v.Z, 0.0,
        0.0, 0.0, 0.0, 1.0),
      Matrix4x4(
        1.0 / v.X, 0.0, 0.0, 0.0,
        0.0, 1.0 / v.Y, 0.0, 0.0,
        0.0, 0.0, 1.0 / v.Z, 0.0,
        0.0, 0.0, 0.0, 1.0))
  }

  /** `rotation_x`, given the sine and cosine of the angle. */
  function RotationX(sinAngle: real, cosAngle: real): (t: Transformation)
    ensures IsAffine(t.M) && IsAffine(t.InvM)
  {
    Transformation(
      Matrix4x4(
        1.0, 0.0, 0.0, 0.0,
        0.0, cosAngle, -sinAngle, 0.0,
        0.0, sinAngle, cosAngle, 0.0,
        0.0, 0.0, 0.0, 1.0),
      Matrix4x4(
        1.0, 0.0, 0.0, 0.0,
        0.0, cosAngle, sinAngle, 0.0,
        0.0, -sinAngle, cosAngle, 0.0,
        0.0, 0.0, 0.0, 1.0))
  }

  /** `rotation_y`, given the sine and cosine of the angle. */
  function RotationY(sinAngle: real, cosAngle: real): (t: Transformation)
    ensures IsAffine(t.M) && IsAffine(t.InvM)
  {
    Transformation(
      Matrix4x4(
        cosAngle, 0.0, sinAngle, 0.0,
        0.0, 1.0, 0.0, 0.0,
        -sinAngle, 0.0, cosAngle, 0.0,
        0.0, 0.0, 0.0, 1.0),
      Matrix4x4(
        cosAngle, 0.0, -sinAngle, 0.0,
        0.0, 1.0, 0.0, 0.0,
        sinAngle, 0.0, cosAngle, 0.0,
        0.0, 0.0, 0.0, 1.0))
  }

  /** `rotation_z`, given the sine and cosine of the angle. */
  function RotationZ(sinAngle: real, cosAngle: real): (t: Transformation)
    ensures IsAffine(t.M) && IsAffine(t.InvM)
  {
    Transformation(
      Matrix4x4(
        cosAngle, -sinAngle, 0.0, 0.0,
        sinAngle, cosAngle, 0.0, 0.0,
        0.0, 0.0, 1.0, 0.0,
        0.0, 0.0, 0.0, 1.0),
      Matrix4x4(
        cosAngle, sinAngle, 0.0, 0.0,
        -sinAngle, cosAngle, 0.0, 0.0,
        0.0, 0.0, 1.0, 0.0,
        0.0, 0.0, 0.0, 1.0))
  }

  /** `inverse`: the two matrices trade places. */
  function Inverse(t: Transformation): (r: Transformation)
    ensures IsInvertible(t) ==> IsInvertible(r)
  {
    Transformation(t.InvM, t.M)
  }

  /** `ta * tb`: apply `tb` first, then `ta`; the inverses compose in reverse order. */
  function Compose(ta: Transformation, tb: Transformation): (r: Transformation)
    ensures IsAffine(ta.M) && IsAffine(tb.M) ==> IsAffine(r.M)
  {
    Transformation(Multiply(ta.M, tb.M), Multiply(tb.InvM, ta.InvM))
  }

  /** The fourth homogeneous coordinate of `t * p`. */
  function PointW(t: Transformation, p: Point): real {
    p.X * t.M.M41 + p.Y * t.M.M42 + p.Z * t.M.M43 + t.M.M44
  }

  /**
   * `t * p`: the point is multiplied as (x, y, z, 1); the result is divided by w
   * unless w is within 1e-5 of 1. A w of exactly zero (an IEEE infinity in the
   * source) is excluded.
   */
  function TransformPoint(t: Transformation, p: Point): (r: Point)
    requires PointW(t, p) != 0.0
    ensures IsAffine(t.M) ==> r == Point(
      Dot4(t.M.M11, t.M.M12, t.M.M13, t.M.M14, p.X, p.Y, p.Z, 1.0),
      Dot4(t.M.M21, t.M.M22, t.M.M23, t.M.M24, p.X, p.Y, p.Z, 1.0),
      Dot4(t.M.M31, t.M.M32, t.M.M33, t.M.M34, p.X, p.Y, p.Z, 1.0))
  {
    var m := t.M;
    var x := p.X * m.M11 + p.Y * m.M12 + p.Z * m.M13 + m.M14;
    var y := p.X * m.M21 + p.Y * m.M22 + p.Z * m.M23 + m.M24;
    var z := p.X * m.M31 + p.Y * m.M32 + p.Z * m.M33 + m.M34;
    var w := PointW(t, p);
    if Abs(w - 1.0) < 0.00001 then Point(x, y, z) else Point(x / w, y / w, z / w)
  }

  /** `t * v`: only the upper-left 3x3 block of `M` acts on a vector. */
  function TransformVec(t: Transformation, v: Vec): (r: Vec)
    ensures r == Vec(
      Dot4(t.M.M11, t.M.M12, t.M.M13, t.M.M14, v.X, v.Y, v.Z, 0.0),
      Dot4(t.M.M21, t.M.M22, t.M.M23, t.M.M24, v.X, v.Y, v.Z, 0.0),
      Dot4(t.M.M31, t.M.M32, t.M.M33, t.M.M34, v.X, v.Y, v.Z, 0.0))
  {
    var m := t.M;
    Vec(
      v.X * m.M11 + v.Y * m.M12 + v.Z * m.M13,
      v.X * m.M21 + v.Y * m.M22 + v.Z * m.M23,
      v.X * m.M31 + v.Y * m.M32 + v.Z * m.M33)
  }

  /** `t * n`: a normal is multiplied by the transpose of the upper-left 3x3 block of `InvM`. */
  function TransformNormal(t: Transformation, n: Normal): (r: Normal)
    ensures r == Normal(
      Dot4(n.X, n.Y, n.Z, 0.0, t.InvM.M11, t.InvM.M21, t.InvM.M31, t.InvM.M41),
      Dot4(n.X, n.Y, n.Z, 0.0, t.InvM.M12, t.InvM.M22, t.InvM.M32, t.InvM.M42),
      Dot4(n.X, n.Y, n.Z, 0.0, t.InvM.M13, t.InvM.M23, t.InvM.M33, t.InvM.M43))
  {
    var inv := t.InvM;
    Normal(
      n.X * inv.M11 + n.Y * inv.M21 + n.Z * inv.M31,
      n.X * inv.M12 + n.Y * inv.M22 + n.Z * inv.M32,
      n.X * inv.M13 + n.Y * inv.M23 + n.Z * inv.M33)
  }

  // ----- Matrix algebra -----

  lemma Dot4Scale(x1: real, x2: real, x3: real, x4: real, y1: real, y2: real, y3: real, y4: real, k: real)
    ensures Dot4(x1, x2, x3, x4, y1, y2, y3, y4) * k == Dot4(x1, x2, x3, x4, y1 * k, y2 * k, y3 * k, y4 * k)
  {
  }

  lemma Dot4Add(x1: real, x2: real, x3: real, x4: real, y1: real, y2: real, y3: real, y4: real,
                z1: real, z2: real, z3: real, z4: real)
    ensures Dot4(x1, x2, x3, x4, y1, y2, y3, y4) + Dot4(x1, x2, x3, x4, z1, z2, z3, z4)
         == Dot4(x1, x2, x3, x4, y1 + z1, y2 + z2, y3 + z3, y4 + z4)
  {
  }

  /**
   * One entry of the associativity law: (a B) c == a (B c) for a row a, a 4x4 block B
   * (entries b11 … b44) and a column c. The proof distributes c over the columns of B.
   */
  lemma Dot4Assoc(a1: real, a2: real, a3: real, a4: real,
      b11: real, b12: real, b13: real, b14: real,
      b21: real, b22: real, b23: real, b24: real,
      b31: real, b32: real, b33: real, b34: real,
      b41: real, b42: real, b43: real, b44: real,
      c1: real, c2: real, c3: real, c4: real)
    ensures Dot4(Dot4(a1, a2, a3, a4, b11, b21, b31, b41), Dot4(a1, a2, a3, a4, b12, b22, b32, b42), Dot4(a1, a2, a3, a4, b13, b23, b33, b43), Dot4(a1, a2, a3, a4, b14, b24, b34, b44), c1, c2, c3, c4)
         == Dot4(a1, a2, a3, a4, Dot4(b11, b12, b13, b14, c1, c2, c3, c4), Dot4(b21, b22, b23, b24, c1, c2, c3, c4), Dot4(b31, b32, b33, b34, c1, c2, c3, c4), Dot4(b41, b42, b43, b44, c1, c2, c3, c4))
  {
    Dot4Scale(a1, a2, a3, a4, b11, b21, b31, b41, c1);
    Dot4Scale(a1, a2, a3, a4, b12, b22, b32, b42, c2);
    Dot4Scale(a1, a2, a3, a4, b13, b23, b33, b43, c3);
    Dot4Scale(a1, a2, a3, a4, b14, b24, b34, b44, c4);
    Dot4Add(a1, a2, a3, a4, b11 * c1, b21 * c1, b31 * c1, b41 * c1, b12 * c2, b22 * c2, b32 * c2, b42 * c2);
    Dot4Add(a1, a2, a3, a4, b11 * c1 + b12 * c2, b21 * c1 + b22 * c2, b31 * c1 + b32 * c2, b41 * c1 + b42 * c2, b13 * c3, b23 * c3, b33 * c3, b43 * c3);
    Dot4Add(a1, a2, a3, a4, b11 * c1 + b12 * c2 + b13 * c3, b21 * c1 + b22 * c2 + b23 * c3, b31 * c1 + b32 * c2 + b33 * c3, b41 * c1 + b42 * c2 + b43 * c3, b14 * c4, b24 * c4, b34 * c4, b44 * c4);
  }

  lemma MultiplyAssociative(a: Matrix4x4, b: Matrix4x4, c: Matrix4x4)
    ensures Multiply(Multiply(a, b), c) == Multiply(a, Multiply(b, c))
  {
    Dot4Assoc(a.M11, a.M12, a.M13, a.M14,
      b.M11, b.M12, b.M13, b.M14, b.M21, b.M22, b.M23, b.M24, b.M31, b.M32, b.M33, b.M34, b.M41, b.M42, b.M43, b.M44,
      c.M11, c.M21, c.M31, c.M41);
    Dot4Assoc(a.M11, a.M12, a.M13, a.M14,
      b.M11, b.M12, b.M13, b.M14, b.M21, b.M22, b.M23, b.M24, b.M31, b.M32, b.M33, b.M34, b.M41, b.M42, b.M43, b.M44,
      c.M12, c.M22, c.M32, c.M42);
    Dot4Assoc(a.M11, a.M12, a.M13, a.M14,
      b.M11, b.M12, b.M13, b.M14, b.M21, b.M22, b.M23, b.M24, b.M31, b.M32, b.M33, b.M34, b.M41, b.M42, b.M43, b.M44,
      c.M13, c.M23, c.M33, c.M43);
    Dot4Assoc(a.M11, a.M12, a.M13, a.M14,
      b.M11, b.M12, b.M13, b.M14, b.M21, b.M22, b.M23, b.M24, b.M31, b.M32, b.M33, b.M34, b.M41, b.M42, b.M43, b.M44,
      c.M14, c.M24, c.M34, c.M44);
    Dot4Assoc(a.M21, a.M22, a.M23, a.M24,
      b.M11, b.M12, b.M13, b.M14, b.M21, b.M22, b.M23, b.M24, b.M31, b.M32, b.M33, b.M34, b.M41, b.M42, b.M43, b.M44,
      c.M11, c.M21, c.M31, c.M41);
    Dot4Assoc(a.M21, a.M22, a.M23, a.M24,
      b.M11, b.M12, b.M13, b.M14, b.M21, b.M22, b.M23, b.M24, b.M31, b.M32, b.M33, b.M34, b.M41, b.M42, b.M43, b.M44,
      c.M12, c.M22, c.M32, c.M42);
    Dot4Assoc(a.M21, a.M22, a.M23, a.M24,
      b.M11, b.M12, b.M13, b.M14, b.M21, b.M22, b.M23, b.M24, b.M31, b.M32, b.M33, b.M34, b.M41, b.M42, b.M43, b.M44,
      c.M13, c.M23, c.M33, c.M43);
    Dot4Assoc(a.M21, a.M22, a.M23, a.M24,
      b.M11, b.M12, b.M13, b.M14, b.M21, b.M22, b.M23, b.M24, b.M31, b.M32, b.M33, b.M34, b.M41, b.M42, b.M43, b.M44,
      c.M14, c.M24, c.M34, c.M44);
    Dot4Assoc(a.M31, a.M32, a.M33, a.M34,
      b.M11, b.M12, b.M13, b.M14, b.M21, b.M22, b.M23, b.M24, b.M31, b.M32, b.M33, b.M34, b.M41, b.M42, b.M43, b.M44,
      c.M11, c.M21, c.M31, c.M41);
    Dot4Assoc(a.M31, a.M32, a.M33, a.M34,
      b.M11, b.M12, b.M13, b.M14, b.M21, b.M22, b.M23, b.M24, b.M31, b.M32, b.M33, b.M34, b.M41, b.M42, b.M43, b.M44,
      c.M12, c.M22, c.M32, c.M42);
    Dot4Assoc(a.M31, a.M32, a.M33, a.M34,
      b.M11, b.M12, b.M13, b.M14, b.M21, b.M22, b.M23, b.M24, b.M31, b.M32, b.M33, b.M34, b.M41, b.M42, b.M43, b.M44,
      c.M13, c.M23, c.M33, c.M43);
    Dot4Assoc(a.M31, a.M32, a.M33, a.M34,
      b.M11, b.M12, b.M13, b.M14, b.M21, b.M22, b.M23, b.M24, b.M31, b.M32, b.M33, b.M34, b.M41, b.M42, b.M43, b.M44,
      c.M14, c.M24, c.M34, c.M44);
    Dot4Assoc(a.M41, a.M42, a.M43, a.M44,
      b.M11, b.M12, b.M13, b.M14, b.M21, b.M22, b.M23, b.M24, b.M31, b.M32, b.M33, b.M34, b.M41, b.M42, b.M43, b.M44,
      c.M11, c.M21, c.M31, c.M41);
    Dot4Assoc(a.M41, a.M42, a.M43, a.M44,
      b.M11, b.M12, b.M13, b.M14, b.M21, b.M22, b.M23, b.M24, b.M31, b.M32, b.M33, b.M34, b.M41, b.M42, b.M43, b.M44,
      c.M12, c.M22, c.M32, c.M42);
    Dot4Assoc(a.M41, a.M42, a.M43, a.M44,
      b.M11, b.M12, b.M13, b.M14, b.M21, b.M22, b.M23, b.M24, b.M31, b.M32, b.M33, b.M34, b.M41, b.M42, b.M43, b.M44,
      c.M13, c.M23, c.M33, c.M43);
    Dot4Assoc(a.M41, a.M42, a.M43, a.M44,
      b.M11, b.M12, b.M13, b.M14, b.M21, b.M22, b.M23, b.M24, b.M31, b.M32, b.M33, b.M34, b.M41, b.M42, b.M43, b.M44,
      c.M14, c.M24, c.M34, c.M44);
  }

  lemma MultiplyIdentity(m: Matrix4x4)
    ensures Multiply(Identity, m) == m
    ensures Multiply(m, Identity) == m
  {
  }

  // ----- Exact facts about inverse and composition -----

  lemma InverseInvolutive(t: Transformation)
    ensures Inverse(Inverse(t)) == t
  {
  }

  lemma ComposeInverse(ta: Transformation, tb: Transformation)
    ensures Inverse(Compose(ta, tb)) == Compose(Inverse(tb), Inverse(ta))
  {
  }

  lemma ComposeAssociative(ta: Transformation, tb: Transformation, tc: Transformation)
    ensures Compose(Compose(ta, tb), tc) == Compose(ta, Compose(tb, tc))
  {
    MultiplyAssociative(ta.M, tb.M, tc.M);
    MultiplyAssociative(tc.InvM, tb.InvM, ta.InvM);
  }

  lemma ComposeIdentity(t: Transformation)
    ensures Compose(IdentityTransformation(), t) == t
    ensures Compose(t, IdentityTransformation()) == t
  {
    MultiplyIdentity(t.M);
    MultiplyIdentity(t.InvM);
  }

  /** (A B)(B' A') = A (B B') A' = A A' = I. */
  lemma ComposeConsistent(ta: Transformation, tb: Transformation)
    requires IsExactlyConsistent(ta) && IsExactlyConsistent(tb)
    ensures IsExactlyConsistent(Compose(ta, tb))
  {
    var a, a', b, b' := ta.M, ta.InvM, tb.M, tb.InvM;
    calc {
      Multiply(Multiply(a, b), Multiply(b', a'));
      { MultiplyAssociative(a, b, Multiply(b', a')); }
      Multiply(a, Multiply(b, Multiply(b', a')));
      { MultiplyAssociative(b, b', a'); }
      Multiply(a, Multiply(Multiply(b, b'), a'));
      { MultiplyIdentity(a'); }
      Multiply(a, a');
    }
  }

  lemma ComposeInvertible(ta: Transformation, tb: Transformation)
    requires IsInvertible(ta) && IsInvertible(tb)
    ensures IsInvertible(Compose(ta, tb))
  {
    ComposeConsistent(ta, tb);
    ComposeConsistent(Inverse(tb), Inverse(ta));
  }

  /**
   * `inverse()` of a transformation whose matrices are inverse on both sides is again
   * two-sided and passes `is_consistent` for any tolerance. That a one-sided inverse
   * (`M` times `InvM` the identity) is two-sided is not derived here.
   */
  lemma InverseConsistent(t: Transformation, epsilon: real)
    requires IsInvertible(t) && epsilon >= 0.0
    ensures IsInvertible(Inverse(t))
    ensures IsConsistent(Inverse(t), epsilon)
  {
    ExactlyConsistentIsConsistent(Inverse(t), epsilon);
  }

  /** Exact consistency passes the tolerance check of `is_consistent` for any tolerance. */
  lemma ExactlyConsistentIsConsistent(t: Transformation, epsilon: real)
    requires IsExactlyConsistent(t) && epsilon >= 0.0
    ensures IsConsistent(t, epsilon)
  {
  }

  // ----- The factories -----

  lemma IdentityInvertible()
    ensures IsInvertible(IdentityTransformation())
  {
    MultiplyIdentity(Identity);
  }

  lemma TranslationInvertible(v: Vec)
    ensures IsInvertible(Translation(v))
  {
  }

  lemma TranslationCompose(a: Vec, b: Vec)
    ensures Compose(Translation(a), Translation(b)) == Translation(Vectors.Add(a, b))
  {
  }

  lemma ScalingInvertible(v: Vec)
    requires NonZeroComponents(v)
    ensures IsInvertible(Scaling(v))
  {
  }

  function ComponentProduct(a: Vec, b: Vec): Vec {
    Vec(a.X * b.X, a.Y * b.Y, a.Z * b.Z)
  }

  lemma ReciprocalProduct(x: real, y: real)
    requires x != 0.0 && y != 0.0
    ensures x * y != 0.0
    ensures (1.0 / y) * (1.0 / x) == 1.0 / (x * y)
  {
  }

  lemma ScalingCompose(a: Vec, b: Vec)
    requires NonZeroComponents(a) && NonZeroComponents(b)
    ensures NonZeroComponents(ComponentProduct(a, b))
    ensures Compose(Scaling(a), Scaling(b)) == Scaling(ComponentProduct(a, b))
  {
    ReciprocalProduct(a.X, b.X);
    ReciprocalProduct(a.Y, b.Y);
    ReciprocalProduct(a.Z, b.Z);
  }

  lemma RotationsInvertible(sinAngle: real, cosAngle: real)
    requires sinAngle * sinAngle + cosAngle * cosAngle == 1.0
    ensures IsInvertible(RotationX(sinAngle, cosAngle))
    ensures IsInvertible(RotationY(sinAngle, cosAngle))
    ensures IsInvertible(RotationZ(sinAngle, cosAngle))
  {
  }

  // ----- Acting on points, vectors and normals -----

  lemma AffinePointW(t: Transformation, p: Point)
    requires IsAffine(t.M)
    ensures PointW(t, p) == 1.0
  {
  }

  lemma IdentityActs(p: Point, v: Vec, n: Normal)
    ensures PointW(IdentityTransformation(), p) == 1.0
    ensures TransformPoint(IdentityTransformation(), p) == p
    ensures TransformVec(IdentityTransformation(), v) == v
    ensures TransformNormal(IdentityTransformation(), n) == n
  {
  }

  /** Points and vectors see only `M`: an identity `M` leaves them alone, whatever `InvM` is. */
  lemma IdentityMatrixActs(t: Transformation, p: Point, v: Vec)
    requires t.M == Identity
    ensures PointW(t, p) == 1.0
    ensures TransformPoint(t, p) == p && TransformVec(t, v) == v
  {
  }

  lemma TranslationActs(v: Vec, p: Point, u: Vec)
    ensures TransformPoint(Translation(v), p) == Translate(p, v)
    ensures TransformVec(Translation(v), u) == u
  {
  }

  /** A rotation about z turns the x-y components and keeps z. */
  lemma RotationZActs(sinAngle: real, cosAngle: real, p: Point, v: Vec)
    ensures TransformPoint(RotationZ(sinAngle, cosAngle), p)
      == Point(cosAngle * p.X - sinAngle * p.Y, sinAngle * p.X + cosAngle * p.Y, p.Z)
    ensures TransformVec(RotationZ(sinAngle, cosAngle), v)
      == Vec(cosAngle * v.X - sinAngle * v.Y, sinAngle * v.X + cosAngle * v.Y, v.Z)
  {
  }

  /**
   * Quarter turns (sine 1, cosine 0) about each axis carry one axis onto the next:
   * x turns y into z, y turns z into x, z turns x into y.
   */
  lemma QuarterTurns()
    ensures TransformVec(RotationX(1.0, 0.0), Vec(0.0, 1.0, 0.0)) == Vec(0.0, 0.0, 1.0)
    ensures TransformVec(RotationY(1.0, 0.0), Vec(0.0, 0.0, 1.0)) == Vec(1.0, 0.0, 0.0)
    ensures TransformVec(RotationZ(1.0, 0.0), Vec(1.0, 0.0, 0.0)) == Vec(0.0, 1.0, 0.0)
  {
    var x, y, z := RotationX(1.0, 0.0).M, RotationY(1.0, 0.0).M, RotationZ(1.0, 0.0).M;
    assert x.M12 == 0.0 && x.M13 == 0.0 && x.M22 == 0.0 && x.M23 == -1.0 && x.M32 == 1.0 && x.M33 == 0.0;
    assert y.M13 == 1.0 && y.M23 == 0.0 && y.M33 == 0.0;
    assert z.M11 == 0.0 && z.M21 == 1.0 && z.M31 == 0.0;
  }

  /** Applying `ta * tb` to a point is applying `tb`, then `ta`. */
  lemma TransformPointCompose(ta: Transformation, tb: Transformation, p: Point)
    requires IsAffine(ta.M) && IsAffine(tb.M)
    ensures PointW(Compose(ta, tb), p) != 0.0 && PointW(tb, p) != 0.0
    ensures PointW(ta, TransformPoint(tb, p)) != 0.0
    ensures TransformPoint(Compose(ta, tb), p) == TransformPoint(ta, TransformPoint(tb, p))
  {
    Dot4Assoc(ta.M.M11, ta.M.M12, ta.M.M13, ta.M.M14,
      tb.M.M11, tb.M.M12, tb.M.M13, tb.M.M14, tb.M.M21, tb.M.M22, tb.M.M23, tb.M.M24, tb.M.M31, tb.M.M32, tb.M.M33, tb.M.M34, tb.M.M41, tb.M.M42, tb.M.M43, tb.M.M44,
      p.X, p.Y, p.Z, 1.0);
    Dot4Assoc(ta.M.M21, ta.M.M22, ta.M.M23, ta.M.M24,
      tb.M.M11, tb.M.M12, tb.M.M13, tb.M.M14, tb.M.M21, tb.M.M22, tb.M.M23, tb.M.M24, tb.M.M31, tb.M.M32, tb.M.M33, tb.M.M34, tb.M.M41, tb.M.M42, tb.M.M43, tb.M.M44,
      p.X, p.Y, p.Z, 1.0);
    Dot4Assoc(ta.M.M31, ta.M.M32, ta.M.M33, ta.M.M34,
      tb.M.M11, tb.M.M12, tb.M.M13, tb.M.M14, tb.M.M21, tb.M.M22, tb.M.M23, tb.M.M24, tb.M.M31, tb.M.M32, tb.M.M33, tb.M.M34, tb.M.M41, tb.M.M42, tb.M.M43, tb.M.M44,
      p.X, p.Y, p.Z, 1.0);
  }

  /** Applying `ta * tb` to a vector is applying `tb`, then `ta`. */
  lemma TransformVecCompose(ta: Transformation, tb: Transformation, v: Vec)
    requires IsAffine(tb.M)
    ensures TransformVec(Compose(ta, tb), v) == TransformVec(ta, TransformVec(tb, v))
  {
    Dot4Assoc(ta.M.M11, ta.M.M12, ta.M.M13, ta.M.M14,
      tb.M.M11, tb.M.M12, tb.M.M13, tb.M.M14, tb.M.M21, tb.M.M22, tb.M.M23, tb.M.M24, tb.M.M31, tb.M.M32, tb.M.M33, tb.M.M34, tb.M.M41, tb.M.M42, tb.M.M43, tb.M.M44,
      v.X, v.Y, v.Z, 0.0);
    Dot4Assoc(ta.M.M21, ta.M.M22, ta.M.M23, ta.M.M24,
      tb.M.M11, tb.M.M12, tb.M.M13, tb.M.M14, tb.M.M21, tb.M.M22, tb.M.M23, tb.M.M24, tb.M.M31, tb.M.M32, tb.M.M33, tb.M.M34, tb.M.M41, tb.M.M42, tb.M.M43, tb.M.M44,
      v.X, v.Y, v.Z, 0.0);
    Dot4Assoc(ta.M.M31, ta.M.M32, ta.M.M33, ta.M.M34,
      tb.M.M11, tb.M.M12, tb.M.M13, tb.M.M14, tb.M.M21, tb.M.M22, tb.M.M23, tb.M.M24, tb.M.M31, tb.M.M32, tb.M.M33, tb.M.M34, tb.M.M41, tb.M.M42, tb.M.M43, tb.M.M44,
      v.X, v.Y, v.Z, 0.0);
  }

  /**
   * A normal transformed by `t` stays perpendicular to whatever vectors it was perpendicular to:
   * the scalar product with a vector transformed by `t` is unchanged, provided
   * `InvM * M` is the identity and `M` is affine.
   */
  lemma TransformNormalPreservesDot(t: Transformation, n: Normal, v: Vec)
    requires IsAffine(t.M) && Multiply(t.InvM, t.M) == Identity
    ensures DotVec(TransformNormal(t, n), TransformVec(t, v)) == DotVec(n, v)
  {
    var m, inv := t.M, t.InvM;
    var w1 := Dot4(m.M11, m.M12, m.M13, m.M14, v.X, v.Y, v.Z, 0.0);
    var w2 := Dot4(m.M21, m.M22, m.M23, m.M24, v.X, v.Y, v.Z, 0.0);
    var w3 := Dot4(m.M31, m.M32, m.M33, m.M34, v.X, v.Y, v.Z, 0.0);
    var w4 := Dot4(m.M41, m.M42, m.M43, m.M44, v.X, v.Y, v.Z, 0.0);
    assert w4 == 0.0;
    Dot4Assoc(n.X, n.Y, n.Z, 0.0,
      inv.M11, inv.M12, inv.M13, inv.M14, inv.M21, inv.M22, inv.M23, inv.M24, inv.M31, inv.M32, inv.M33, inv.M34, inv.M41, inv.M42, inv.M43, inv.M44,
      w1, w2, w3, w4);
    Dot4Assoc(inv.M11, inv.M12, inv.M13, inv.M14,
      m.M11, m.M12, m.M13, m.M14, m.M21, m.M22, m.M23, m.M24, m.M31, m.M32, m.M33, m.M34, m.M41, m.M42, m.M43, m.M44,
      v.X, v.Y, v.Z, 0.0);
    Dot4Assoc(inv.M21, inv.M22, inv.M23, inv.M24,
      m.M11, m.M12, m.M13, m.M14, m.M21, m.M22, m.M23, m.M24, m.M31, m.M32, m.M33, m.M34, m.M41, m.M42, m.M43, m.M44,
      v.X, v.Y, v.Z, 0.0);
    Dot4Assoc(inv.M31, inv.M32, inv.M33, inv.M34,
      m.M11, m.M12, m.M13, m.M14, m.M21, m.M22, m.M23, m.M24, m.M31, m.M32, m.M33, m.M34, m.M41, m.M42, m.M43, m.M44,
      v.X, v.Y, v.Z, 0.0);
    Dot4Assoc(inv.M41, inv.M42, inv.M43, inv.M44,
      m.M11, m.M12, m.M13, m.M14, m.M21, m.M22, m.M23, m.M24, m.M31, m.M32, m.M33, m.M34, m.M41, m.M42, m.M43, m.M44,
      v.X, v.Y, v.Z, 0.0);
  }

  /** The matrices of the vector/point/normal test: `InvM` inverts `M`, and the three products. */
  lemma VecPointNormalExample()
    ensures var t := Transformation(
      Matrix4x4(
        1.0, 2.0, 3.0, 4.0,
        5.0, 6.0, 7.0, 8.0,
        9.0, 9.0, 8.0, 7.0,
        0.0, 0.0, 0.0, 1.0),
      Matrix4x4(
        -3.75, 2.75, -1.0, 0.0,
        5.75, -4.75, 2.0, 1.0,
        -2.25, 2.25, -1.0, -2.0,
        0.0, 0.0, 0.0, 1.0));
      IsExactlyConsistent(t) && PointW(t, Point(1.0, 2.0, 3.0)) != 0.0
      && TransformVec(t, Vec(1.0, 2.0, 3.0)) == Vec(14.0, 38.0, 51.0)
      && TransformPoint(t, Point(1.0, 2.0, 3.0)) == Point(18.0, 46.0, 58.0)
      && TransformNormal(t, Normal(3.0, 2.0, 4.0)) == Normal(-8.75, 7.75, -3.0)
  {
  }

  /** The composition test: both matrices of `t1 * t2` come out exactly as expected. */
  lemma CompositionExample()
    ensures var t1 := Transformation(
      Matrix4x4(
        1.0, 2.0, 3.0, 4.0,
        5.0, 6.0, 7.0, 8.0,
        9.0, 9.0, 8.0, 7.0,
        6.0, 5.0, 4.0, 1.0),
      Matrix4x4(
        -3.75, 2.75, -1.0, 0.0,
        4.375, -3.875, 2.0, -0.5,
        0.5, 0.5, -1.0, 1.0,
        -1.375, 0.875, 0.0, -0.5));
    var t2 := Transformation(
      Matrix4x4(
        3.0, 5.0, 2.0, 4.0,
        4.0, 1.0, 0.0, 5.0,
        6.0, 3.0, 2.0, 0.0,
        1.0, 4.0, 2.0, 1.0),
      Matrix4x4(
        0.4, -0.2, 0.2, -0.6,
        2.9, -1.7, 0.2, -3.1,
        -5.55, 3.15, -0.4, 6.45,
        -0.9, 0.7, -0.2, 1.1));
    IsExactlyConsistent(t1) && IsExactlyConsistent(t2)
    && Compose(t1, t2) == Transformation(
      Matrix4x4(
        33.0, 32.0, 16.0, 18.0,
        89.0, 84.0, 40.0, 58.0,
        118.0, 106.0, 48.0, 88.0,
        63.0, 51.0, 22.0, 50.0),
      Matrix4x4(
        -1.45, 1.45, -1.0, 0.6,
        -13.95, 11.95, -6.5, 2.6,
        25.525, -22.025, 12.25, -5.2,
        4.825, -4.325, 2.5, -1.1))
  {
  }
}
