/**
 * The two cameras (`Trace.Cameras.OrthogonalCamera`, `Trace.Cameras.PerspectiveCamera`):
 * each turns screen coordinates (u, v) in [0, 1]^2 into a ray, built in camera space
 * and then mapped through the camera's transformation.
 */
module Cameras {
  import opened Vectors
  import opened Points
  import opened Transformations
  import opened Rays

  datatype Camera =
    | Orthogonal(AspectRatio: real, Transformation: Transformation)
    | Perspective(Distance: real, AspectRatio: real, Transformation: Transformation)

  /** `OrthogonalCamera(transformation)`: the aspect ratio defaults to 1. */
  function NewOrthogonal(transformation: Transformation): (c: Camera)
    ensures c.Orthogonal? && c.AspectRatio == 1.0 && c.Transformation == transformation
  {
    Orthogonal(1.0, transformation)
  }

  /** `PerspectiveCamera(aspectRatio, transformation)`: the distance defaults to 1. */
  function NewPerspective(aspectRatio: real, transformation: Transformation): (c: Camera)
    ensures c.Perspective? && c.Distance == 1.0 && c.AspectRatio == aspectRatio
    ensures c.Transformation == transformation
  {
    Perspective(1.0, aspectRatio, transformation)
  }

  /** `PerspectiveCamera(transformation)`: the distance and the aspect ratio both default to 1. */
  function DefaultPerspective(transformation: Transformation): (c: Camera)
    ensures c.Perspective? && c.Distance == 1.0 && c.AspectRatio == 1.0
    ensures c.Transformation == transformation
  {
    Perspective(1.0, 1.0, transformation)
  }

  /** The ray before the camera's transformation is applied. */
  function CameraSpaceRay(cam: Camera, u: real, v: real): Ray {
    match cam
    case Orthogonal(ar, _) =>
      NewRay(Point(-1.0, (1.0 - 2.0 * u) * ar, 2.0 * v - 1.0), Vec(1.0, 0.0, 0.0))
    case Perspective(d, ar, _) =>
      NewRay(Point(-d, 0.0, 0.0), Vec(d, (1.0 - 2.0 * u) * ar, 2.0 * v - 1.0), 1.0)
  }

  /** The cameras' transformations are expected to map points without a zero w. */
  predicate CanFire(cam: Camera, u: real, v: real) {
    PointW(cam.Transformation, CameraSpaceRay(cam, u, v).Origin) != 0.0
  }

  /** `fire_ray(u, v)`. */
  function FireRay(cam: Camera, u: real, v: real): (r: Ray)
    requires CanFire(cam, u, v)
    ensures r == Transform(CameraSpaceRay(cam, u, v), cam.Transformation)
    ensures r.Tmax == Infinity && r.Depth == 0
    ensures r.Tmin == if cam.Orthogonal? then DefaultTmin else 1.0
  {
    Transform(CameraSpaceRay(cam, u, v), cam.Transformation)
  }

  /** Every ray of an orthogonal camera has the same direction, whatever (u, v). */
  lemma OrthogonalRaysParallel(cam: Camera, u1: real, v1: real, u2: real, v2: real)
    requires cam.Orthogonal? && CanFire(cam, u1, v1) && CanFire(cam, u2, v2)
    ensures FireRay(cam, u1, v1).Dir == FireRay(cam, u2, v2).Dir
    ensures Cross(FireRay(cam, u1, v1).Dir, FireRay(cam, u2, v2).Dir) == Vec(0.0, 0.0, 0.0)
  {
    CrossAnticommutative(FireRay(cam, u1, v1).Dir, FireRay(cam, u2, v2).Dir);
  }

  /** Every ray of a perspective camera leaves from the same point, at distance `Distance` behind the screen. */
  lemma PerspectiveCommonOrigin(cam: Camera, u1: real, v1: real, u2: real, v2: real)
    requires cam.Perspective? && CanFire(cam, u1, v1) && CanFire(cam, u2, v2)
    ensures FireRay(cam, u1, v1).Origin == FireRay(cam, u2, v2).Origin
  {
  }

  /** An affine camera transformation is applied to every point of the camera-space ray. */
  lemma FireRayAt(cam: Camera, u: real, v: real, t: real)
    requires IsAffine(cam.Transformation.M)
    ensures CanFire(cam, u, v)
    ensures PointW(cam.Transformation, At(CameraSpaceRay(cam, u, v), t)) != 0.0
    ensures At(FireRay(cam, u, v), t) == TransformPoint(cam.Transformation, At(CameraSpaceRay(cam, u, v), t))
  {
    TransformAt(CameraSpaceRay(cam, u, v), cam.Transformation, t);
  }

  /** Without a transformation the fired ray is the camera-space ray. */
  lemma FireRayIdentity(cam: Camera, u: real, v: real)
    requires cam.Transformation == IdentityTransformation()
    ensures CanFire(cam, u, v) && FireRay(cam, u, v) == CameraSpaceRay(cam, u, v)
  {
    TransformIdentity(CameraSpaceRay(cam, u, v), cam.Transformation);
  }

  /** Both kinds of camera reach, at t = 1, the point of the screen x = 0 that (u, v) names (in camera space). */
  lemma ScreenPointAtOne(cam: Camera, u: real, v: real)
    ensures At(CameraSpaceRay(cam, u, v), 1.0) == Point(0.0, (1.0 - 2.0 * u) * cam.AspectRatio, 2.0 * v - 1.0)
  {
  }

  /**
   * An untransformed camera reaches the screen point of (u, v) at t = 1: for u, v in {0, 1}
   * these are the screen corners (0, +-AspectRatio, +-1) of the corner tests.
   */
  lemma UntransformedScreenPoint(cam: Camera, u: real, v: real)
    requires cam.Transformation == IdentityTransformation()
    ensures CanFire(cam, u, v)
    ensures At(FireRay(cam, u, v), 1.0) == Point(0.0, (1.0 - 2.0 * u) * cam.AspectRatio, 2.0 * v - 1.0)
  {
    FireRayIdentity(cam, u, v);
    ScreenPointAtOne(cam, u, v);
  }

  /** A camera whose transformation is `a * b` fires the camera-space ray moved by `b`, then by `a`. */
  lemma FireRayComposed(cam: Camera, a: Transformation, b: Transformation, u: real, v: real)
    requires cam.Transformation == Compose(a, b) && IsAffine(a.M) && IsAffine(b.M)
    ensures CanFire(cam, u, v)
    ensures PointW(b, CameraSpaceRay(cam, u, v).Origin) != 0.0
    ensures PointW(a, Transform(CameraSpaceRay(cam, u, v), b).Origin) != 0.0
    ensures FireRay(cam, u, v) == Transform(Transform(CameraSpaceRay(cam, u, v), b), a)
  {
    TransformCompose(CameraSpaceRay(cam, u, v), b, a);
  }

  /** The centre of the screen of an orthogonal camera moved by `a * b` lies where `b`, then `a`, carry the origin. */
  lemma ComposedCentre(cam: Camera, a: Transformation, b: Transformation)
    requires cam.Orthogonal? && cam.Transformation == Compose(a, b) && IsAffine(a.M) && IsAffine(b.M)
    ensures CanFire(cam, 0.5, 0.5) && PointW(b, Point(0.0, 0.0, 0.0)) != 0.0
    ensures PointW(a, TransformPoint(b, Point(0.0, 0.0, 0.0))) != 0.0
    ensures At(FireRay(cam, 0.5, 0.5), 1.0) == TransformPoint(a, TransformPoint(b, Point(0.0, 0.0, 0.0)))
  {
    var centre := At(CameraSpaceRay(cam, 0.5, 0.5), 1.0);
    ScreenPointAtOne(cam, 0.5, 0.5);
    FireRayAt(cam, 0.5, 0.5, 1.0);
    TransformPointCompose(a, b, centre);
  }

  /**
   * The transformed orthogonal camera of the tests: moved by -2 along y after a quarter turn
   * about z, it sends the ray through the screen's centre to (0, -2, 0) at t = 1.
   */
  lemma OrthogonalTransformExample()
    ensures var cam := NewOrthogonal(Compose(Translation(Vec(0.0, -2.0, 0.0)), RotationZ(1.0, 0.0)));
      CanFire(cam, 0.5, 0.5) && At(FireRay(cam, 0.5, 0.5), 1.0) == Point(0.0, -2.0, 0.0)
  {
    var a, b := Translation(Vec(0.0, -2.0, 0.0)), RotationZ(1.0, 0.0);
    var origin := Point(0.0, 0.0, 0.0);
    ComposedCentre(NewOrthogonal(Compose(a, b)), a, b);
    assert TransformPoint(b, origin) == origin by {
      RotationZActs(1.0, 0.0, origin, Vec(0.0, 0.0, 0.0));
    }
    assert TransformPoint(a, origin) == Point(0.0, -2.0, 0.0) by {
      TranslationActs(Vec(0.0, -2.0, 0.0), origin, Vec(0.0, 0.0, 0.0));
    }
  }
}
