/**
 * Orthonormal bases (`Trace.Onb`), built from a unit vector by the construction of
 * Duff et al., "Building an Orthonormal Basis, Revisited" (JCGT 2017).
 */
module OrthonormalBasis {
  import opened Vectors

  datatype Basis = Basis(E1: Vec, E2: Vec, E3: Vec)

  /**
   * `MathF.CopySign(1, z)`: +1 for z >= 0 and -1 for z < 0. Over reals there is no
   * negative zero, for which the source would pick -1.
   */
  function Sign(z: real): (s: real)
    ensures s == 1.0 || s == -1.0
    ensures s * s == 1.0
    ensures s + z != 0.0 && (s + z > 0.0 <==> z >= 0.0)
  {
    if z >= 0.0 then 1.0 else -1.0
  }

  /** The three vectors `CreateOnbFromZ(v)` stores: E3 is `v` itself. */
  function FromZ(v: Vec): (b: Basis)
    ensures b.E3 == v
  {
    var sign := Sign(v.Z);
    var a := -1.0 / (sign + v.Z);
    var b := v.X * v.Y * a;
    Basis(
      Vec(1.0 + sign * v.X * v.X * a, sign * b, -sign * v.X),
      Vec(b, sign + v.Y * v.Y * a, -v.Y),
      v)
  }

  /** The facts about s = Sign(z) and a = -1/(s + z) that every orthonormality step uses. */
  lemma KeyFacts(x: real, y: real, z: real)
    requires x * x + y * y + z * z == 1.0
    ensures var s := Sign(z); var a := -1.0 / (s + z);
      a * (s + z) == -1.0 && (x * x + y * y) * a == z - s
  {
    var s := Sign(z);
    var d := s + z;
    var a := -1.0 / d;
    assert a * d == -1.0;
    assert x * x + y * y == (s - z) * d by {
      assert (s - z) * d == s * s - z * z;
    }
    calc {
      (x * x + y * y) * a;
      (s - z) * d * a;
      (s - z) * (a * d);
      z - s;
    }
  }

  /** The hypotheses shared by the orthonormality steps, over plain reals. */
  predicate Setting(x: real, y: real, z: real, s: real, a: real) {
    s * s == 1.0 && a * (s + z) == -1.0 && (x * x + y * y) * a == z - s
  }

  lemma E1DotE2(x: real, y: real, z: real, s: real, a: real)
    requires Setting(x, y, z, s, a)
    ensures var b := x * y * a;
      b * (1.0 + s * x * x * a) + s * b * (s + y * y * a) + s * x * y == 0.0
  {
    var b := x * y * a;
    var q := x * x + y * y;
    calc {
      b * (1.0 + s * x * x * a) + s * b * (s + y * y * a) + s * x * y;
      b + s * s * b + s * b * (q * a) + s * x * y;
      b + b + s * b * (z - s) + s * x * y;
      b + b + s * z * b - s * s * b + s * x * y;
      b + s * z * b + s * x * y;
      x * y * (a + s * (a * z)) + s * x * y;
      x * y * (a * (s * s) + s * (a * z)) + s * x * y;
      x * y * (s * (a * (s + z))) + s * x * y;
      x * y * (s * -1.0) + s * x * y;
      0.0;
    }
  }

  lemma E2DotE3(x: real, y: real, z: real, s: real, a: real)
    requires Setting(x, y, z, s, a)
    ensures var b := x * y * a;
      b * x + (s + y * y * a) * y + -y * z == 0.0
  {
    var q := x * x + y * y;
    calc {
      x * y * a * x + (s + y * y * a) * y + -y * z;
      y * (q * a) + s * y - y * z;
      y * (z - s) + s * y - y * z;
      0.0;
    }
  }

  lemma E3DotE1(x: real, y: real, z: real, s: real, a: real)
    requires Setting(x, y, z, s, a)
    ensures var b := x * y * a;
      x * (1.0 + s * x * x * a) + y * (s * b) + z * (-s * x) == 0.0
  {
    var q := x * x + y * y;
    calc {
      x * (1.0 + s * x * x * a) + y * (s * (x * y * a)) + z * (-s * x);
      x + s * x * (q * a) - s * x * z;
      x + s * x * (z - s) - s * x * z;
      x - (s * s) * x;
      0.0;
    }
  }

  lemma E1Unit(x: real, y: real, z: real, s: real, a: real)
    requires Setting(x, y, z, s, a)
    ensures var b := x * y * a;
      (1.0 + s * x * x * a) * (1.0 + s * x * x * a) + (s * b) * (s * b) + (-s * x) * (-s * x) == 1.0
  {
    var q := x * x + y * y;
    var b := x * y * a;
    calc {
      (1.0 + s * x * x * a) * (1.0 + s * x * x * a) + (s * b) * (s * b) + (-s * x) * (-s * x);
      1.0 + 2.0 * s * x * x * a + (s * s) * x * x * a * (q * a) + (s * s) * x * x;
      1.0 + 2.0 * s * x * x * a + x * x * a * (z - s) + x * x;
      1.0 + s * x * x * a + x * x * (a * z) + x * x;
      1.0 + x * x * (a * (s + z)) + x * x;
      1.0;
    }
  }

  lemma E2Unit(x: real, y: real, z: real, s: real, a: real)
    requires Setting(x, y, z, s, a)
    ensures var b := x * y * a;
      b * b + (s + y * y * a) * (s + y * y * a) + (-y) * (-y) == 1.0
  {
    var q := x * x + y * y;
    calc {
      (x * y * a) * (x * y * a) + (s + y * y * a) * (s + y * y * a) + (-y) * (-y);
      y * y * a * (q * a) + s * s + 2.0 * s * y * y * a + y * y;
      y * y * a * (z - s) + 1.0 + 2.0 * s * y * y * a + y * y;
      y * y * (a * (s + z)) + 1.0 + y * y;
      1.0;
    }
  }

  /** For a unit vector the basis is orthonormal: E1 and E2 have unit length and the three are pairwise perpendicular. */
  lemma FromZOrthonormal(v: Vec)
    requires SquaredNorm(v) == 1.0
    ensures var b := FromZ(v);
      SquaredNorm(b.E1) == 1.0 && SquaredNorm(b.E2) == 1.0 && SquaredNorm(b.E3) == 1.0
      && Dot(b.E1, b.E2) == 0.0 && Dot(b.E2, b.E3) == 0.0 && Dot(b.E3, b.E1) == 0.0
  {
    var x, y, z := v.X, v.Y, v.Z;
    var s := Sign(z);
    var a := -1.0 / (s + z);
    KeyFacts(x, y, z);
    E1DotE2(x, y, z, s, a);
    E2DotE3(x, y, z, s, a);
    E3DotE1(x, y, z, s, a);
    E1Unit(x, y, z, s, a);
    E2Unit(x, y, z, s, a);
  }

  /** `Trace.Onb`: a struct whose constructor fills the three fields through `CreateOnbFromZ`. */
  class Onb {
    var E1: Vec
    var E2: Vec
    var E3: Vec

    /** `Onb(v)`: the fields start as zero vectors and are then set by `CreateOnbFromZ(v)`. */
    constructor (v: Vec)
      ensures Basis(E1, E2, E3) == FromZ(v)
    {
      E1, E2, E3 := Vec(0.0, 0.0, 0.0), Vec(0.0, 0.0, 0.0), Vec(0.0, 0.0, 0.0);
      new;
      CreateOnbFromZ(v);
    }

    method CreateOnbFromZ(v: Vec)
      modifies this
      ensures Basis(E1, E2, E3) == FromZ(v)
    {
      var sign := Sign(v.Z);
      var a := -1.0 / (sign + v.Z);
      var b := v.X * v.Y * a;
      E1 := Vec(1.0 + sign * v.X * v.X * a, sign * b, -sign * v.X);
      E2 := Vec(b, sign + v.Y * v.Y * a, -v.Y);
      E3 := v;
    }
  }
}
