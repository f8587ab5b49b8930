/** RGB radiance values (`Trace.Color`), over exact reals. */
module Colors {
  import opened Vectors

  datatype Color = Color(R: real, G: real, B: real)

  /** The parameterless constructor. */
  function Black(): (c: Color)
    ensures c.R == 0.0 && c.G == 0.0 && c.B == 0.0
  {
    Color(0.0, 0.0, 0.0)
  }

  function Add(a: Color, b: Color): Color {
    Color(a.R + b.R, a.G + b.G, a.B + b.B)
  }

  function Sub(a: Color, b: Color): Color {
    Color(a.R - b.R, a.G - b.G, a.B - b.B)
  }

  /** `a * b`, the componentwise product. */
  function Mul(a: Color, b: Color): Color {
    Color(a.R * b.R, a.G * b.G, a.B * b.B)
  }

  /** `a * alpha`. */
  function Scale(a: Color, alpha: real): Color {
    Color(a.R * alpha, a.G * alpha, a.B * alpha)
  }

  /** `alpha * a`. */
  function ScaleLeft(alpha: real, a: Color): Color {
    Color(a.R * alpha, a.G * alpha, a.B * alpha)
  }

  predicate IsClose(a: Color, b: Color, epsilon: real) {
    Abs(a.R - b.R) < epsilon && Abs(a.G - b.G) < epsilon && Abs(a.B - b.B) < epsilon
  }

  function Max(x: real, y: real): real {
    if x >= y then x else y
  }

  function Min(x: real, y: real): real {
    if x <= y then x else y
  }

  /** The mean of the largest and the smallest channel. */
  function Luminosity(c: Color): (l: real)
    ensures Min(c.R, Min(c.G, c.B)) <= l <= Max(c.R, Max(c.G, c.B))
    ensures c.R == c.G == c.B ==> l == c.R
  {
    (Max(c.R, Max(c.G, c.B)) + Min(c.R, Min(c.G, c.B))) / 2.0
  }

  lemma AddSubRoundTrip(a: Color, b: Color)
    ensures Sub(Add(a, b), b) == a
  {
  }

  lemma Commutative(a: Color, b: Color)
    ensures Add(a, b) == Add(b, a)
    ensures Mul(a, b) == Mul(b, a)
  {
  }

  lemma ScaleSidesAgree(a: Color, alpha: real)
    ensures Scale(a, alpha) == ScaleLeft(alpha, a)
  {
  }

  /** `is_close` holds of equal colours, is symmetric, and fails once one channel is `epsilon` apart. */
  lemma IsCloseProperties(a: Color, b: Color, epsilon: real)
    ensures epsilon > 0.0 ==> IsClose(a, a, epsilon)
    ensures IsClose(a, b, epsilon) ==> IsClose(b, a, epsilon)
    ensures Abs(a.R - b.R) >= epsilon || Abs(a.G - b.G) >= epsilon || Abs(a.B - b.B) >= epsilon
            ==> !IsClose(a, b, epsilon)
  {
  }

  /** The colour arithmetic pinned in the colour tests. */
  lemma ColorExample()
    ensures IsClose(Color(1.0, 2.0, 3.0), Color(1.0, 2.0, 3.0), 0.00001)
    ensures !IsClose(Color(1.0, 2.0, 3.0), Color(3.0, 4.0, 5.0), 0.00001)
    ensures Sub(Color(1.0, 2.0, 3.0), Color(5.0, 7.0, 9.0)) == Color(-4.0, -5.0, -6.0)
    ensures Add(Color(1.0, 2.0, 3.0), Color(5.0, 7.0, 9.0)) == Color(6.0, 9.0, 12.0)
    ensures Mul(Color(1.0, 2.0, 3.0), Color(5.0, 7.0, 9.0)) == Color(5.0, 14.0, 27.0)
    ensures Scale(Color(1.0, 2.0, 3.0), 2.0) == Color(2.0, 4.0, 6.0)
    ensures ScaleLeft(2.0, Color(1.0, 2.0, 3.0)) == Color(2.0, 4.0, 6.0)
    ensures Luminosity(Color(1.0, 2.0, 3.0)) == 2.0
  {
  }
}
