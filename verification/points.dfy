/** Points of 3D space (`Trace.Geometry.Point`), over exact reals. */
module Points {
  import opened Vectors

  datatype Point = Point(X: real, Y: real, Z: real)

  predicate IsClose(p: Point, q: Point, epsilon: real) {
    Abs(p.X - q.X) < epsilon && Abs(p.Y - q.Y) < epsilon && Abs(p.Z - q.Z) < epsilon
  }

  /**
   * `is_close` holds between a point and itself for any positive tolerance, does not
   * depend on the order of its operands, and fails as soon as one coordinate differs
   * by the tolerance or more.
   */
  lemma IsCloseProperties(p: Point, q: Point, epsilon: real)
    ensures epsilon > 0.0 ==> IsClose(p, p, epsilon)
    ensures IsClose(p, q, epsilon) ==> IsClose(q, p, epsilon)
    ensures Abs(p.X - q.X) >= epsilon || Abs(p.Y - q.Y) >= epsilon || Abs(p.Z - q.Z) >= epsilon
            ==> !IsClose(p, q, epsilon)
  {
  }

  /** `p + v`: the point reached from `p` by displacement `v`. */
  function Translate(p: Point, v: Vec): Point {
    Point(p.X + v.X, p.Y + v.Y, p.Z + v.Z)
  }

  /** `p - q`: the displacement from `q` to `p`, a vector. */
  function Diff(p: Point, q: Point): (r: Vec)
    ensures Translate(q, r) == p
  {
    Vec(p.X - q.X, p.Y - q.Y, p.Z - q.Z)
  }

  /** `p - v`. */
  function TranslateBack(p: Point, v: Vec): (r: Point)
    ensures Translate(r, v) == p
  {
    Point(p.X - v.X, p.Y - v.Y, p.Z - v.Z)
  }

  /** `p * alpha`. */
  function Scale(p: Point, alpha: real): Point {
    Point(p.X * alpha, p.Y * alpha, p.Z * alpha)
  }

  /** `alpha * p`. */
  function ScaleLeft(alpha: real, p: Point): Point {
    Point(p.X * alpha, p.Y * alpha, p.Z * alpha)
  }

  function ToVec(p: Point): (r: Vec)
    ensures r == Diff(p, Point(0.0, 0.0, 0.0))
  {
    Vec(p.X, p.Y, p.Z)
  }

  lemma TranslateRoundTrip(p: Point, v: Vec)
    ensures TranslateBack(Translate(p, v), v) == p
    ensures Diff(Translate(p, v), p) == v
  {
  }

  lemma ScaleSidesAgree(p: Point, alpha: real)
    ensures Scale(p, alpha) == ScaleLeft(alpha, p)
  {
  }

  /** The point arithmetic pinned in the geometry tests, on p1 = (1, 2, 3), p2 = (4, 6, 8) and v = (4, 6, 8). */
  lemma PointExample()
    ensures IsClose(Point(1.0, 2.0, 3.0), Point(1.0, 2.0, 3.0), DefaultEpsilon)
    ensures !IsClose(Point(1.0, 2.0, 3.0), Point(4.0, 6.0, 8.0), DefaultEpsilon)
    ensures Scale(Point(1.0, 2.0, 3.0), 2.0) == Point(2.0, 4.0, 6.0)
    ensures Translate(Point(1.0, 2.0, 3.0), Vec(4.0, 6.0, 8.0)) == Point(5.0, 8.0, 11.0)
    ensures Diff(Point(4.0, 6.0, 8.0), Point(1.0, 2.0, 3.0)) == Vec(3.0, 4.0, 5.0)
    ensures TranslateBack(Point(1.0, 2.0, 3.0), Vec(4.0, 6.0, 8.0)) == Point(-3.0, -4.0, -5.0)
  {
  }
}
