/** Rays (`Trace.Cameras.Ray`): an origin, a direction and the interval of `t` in which hits count. */
module Rays {
  import opened Vectors
  import opened Points
  import opened Transformations

  /** `Tmax` is a float that defaults to positive infinity. */
  datatype Bound = Finite(value: real) | Infinity

  /** `t < bound`, with every real below infinity. */
  predicate Below(t: real, bound: Bound) {
    bound.Infinity? || t < bound.value
  }

  datatype Ray = Ray(Origin: Point, Dir: Vec, Tmin: real, Tmax: Bound, Depth: int)

  /** The default `Tmin`, 1e-5. */
  const DefaultTmin: real := 0.00001

  /** The short constructor: `Tmax` stays at infinity and `Depth` at 0. */
  function NewRay(origin: Point, dir: Vec, tmin: real := DefaultTmin): (r: Ray)
    ensures r.Origin == origin && r.Dir == dir && r.Tmin == tmin
    ensures r.Tmax == Infinity && r.Depth == 0
  {
    Ray(origin, dir, tmin, Infinity, 0)
  }

  /** `at(t)`: the point reached after travelling `t` times the direction. */
  function At(r: Ray, t: real): (p: Point)
    ensures Diff(p, r.Origin) == Vectors.Scale(r.Dir, t)
  {
    Translate(r.Origin, Vectors.Scale(r.Dir, t))
  }

  /** `is_close` compares only the origin and the direction. */
  predicate IsClose(r: Ray, s: Ray, epsilon: real) {
    Points.IsClose(r.Origin, s.Origin, epsilon) && Vectors.IsClose(r.Dir, s.Dir, epsilon)
  }

  /** `transform`: the origin is mapped as a point, the direction as a vector; the rest is kept. */
  function Transform(r: Ray, t: Transformation): (s: Ray)
    requires PointW(t, r.Origin) != 0.0
    ensures s.Tmin == r.Tmin && s.Tmax == r.Tmax && s.Depth == r.Depth
  {
    Ray(TransformPoint(t, r.Origin), TransformVec(t, r.Dir), r.Tmin, r.Tmax, r.Depth)
  }

  /** A transformation whose matrix is the identity leaves a ray as it is. */
  lemma TransformIdentity(r: Ray, t: Transformation)
    requires t.M == Identity
    ensures PointW(t, r.Origin) == 1.0
    ensures Transform(r, t) == r
  {
    IdentityMatrixActs(t, r.Origin, r.Dir);
  }

  /** A translation moves the origin and keeps the direction and the interval. */
  lemma TransformByTranslation(r: Ray, v: Vec)
    ensures PointW(Translation(v), r.Origin) == 1.0
    ensures Transform(r, Translation(v)) == Ray(Translate(r.Origin, v), r.Dir, r.Tmin, r.Tmax, r.Depth)
  {
    TranslationActs(v, r.Origin, r.Dir);
  }

  /** A rotation about z turns both the origin and the direction about the z axis. */
  lemma TransformByRotationZ(r: Ray, sinAngle: real, cosAngle: real)
    ensures PointW(RotationZ(sinAngle, cosAngle), r.Origin) == 1.0
    ensures Transform(r, RotationZ(sinAngle, cosAngle)) == Ray(
      Point(cosAngle * r.Origin.X - sinAngle * r.Origin.Y, sinAngle * r.Origin.X + cosAngle * r.Origin.Y, r.Origin.Z),
      Vec(cosAngle * r.Dir.X - sinAngle * r.Dir.Y, sinAngle * r.Dir.X + cosAngle * r.Dir.Y, r.Dir.Z),
      r.Tmin, r.Tmax, r.Depth)
  {
    RotationZActs(sinAngle, cosAngle, r.Origin, r.Dir);
  }

  lemma AtZero(r: Ray)
    ensures At(r, 0.0) == r.Origin
  {
  }

  lemma IsCloseIgnoresInterval(r: Ray, tmin: real, tmax: Bound, depth: int, epsilon: real)
    requires epsilon > 0.0
    ensures IsClose(r, Ray(r.Origin, r.Dir, tmin, tmax, depth), epsilon)
  {
  }

  /** Transforming by `a` and then by `b` is transforming by `b * a`. */
  lemma TransformCompose(r: Ray, a: Transformation, b: Transformation)
    requires IsAffine(a.M) && IsAffine(b.M)
    ensures PointW(a, r.Origin) != 0.0 && PointW(Compose(b, a), r.Origin) != 0.0
    ensures PointW(b, Transform(r, a).Origin) != 0.0
    ensures Transform(Transform(r, a), b) == Transform(r, Compose(b, a))
  {
    TransformPointCompose(b, a, r.Origin);
    TransformVecCompose(b, a, r.Dir);
  }

  /** An affine transformation maps the point the ray reaches at `s` to the point the transformed ray reaches at `s`. */
  lemma TransformAt(r: Ray, t: Transformation, s: real)
    requires IsAffine(t.M)
    ensures PointW(t, r.Origin) != 0.0 && PointW(t, At(r, s)) != 0.0
    ensures At(Transform(r, t), s) == TransformPoint(t, At(r, s))
  {
    AffinePointW(t, r.Origin);
    AffinePointW(t, At(r, s));
  }

  /** The ray tests: points along a ray, and a rotation about x by 90 degrees followed by a translation. */
  lemma RayExample()
    ensures var r := NewRay(Point(1.0, 2.0, 4.0), Vec(4.0, 2.0, 1.0));
      At(r, 1.0) == Point(5.0, 4.0, 5.0) && At(r, 2.0) == Point(9.0, 6.0, 6.0)
    ensures var r := NewRay(Point(1.0, 2.0, 3.0), Vec(6.0, 5.0, 4.0));
      var rotated := Transform(r, RotationX(1.0, 0.0));
      PointW(Translation(Vec(10.0, 11.0, 12.0)), rotated.Origin) != 0.0
      && Transform(rotated, Translation(Vec(10.0, 11.0, 12.0)))
         == Ray(Point(11.0, 8.0, 14.0), Vec(6.0, -4.0, 5.0), DefaultTmin, Infinity, 0)
  {
  }

  /** The `is_close` test: a ray is close to an equal one and not to one with another origin and direction. */
  lemma IsCloseExample()
    ensures IsClose(NewRay(Point(1.0, 2.0, 3.0), Vec(5.0, 4.0, -1.0)), NewRay(Point(1.0, 2.0, 3.0), Vec(5.0, 4.0, -1.0)), 0.00001)
    ensures !IsClose(NewRay(Point(1.0, 2.0, 3.0), Vec(5.0, 4.0, -1.0)), NewRay(Point(5.0, 1.0, 4.0), Vec(3.0, 9.0, 4.0)), 0.00001)
  {
  }
}
