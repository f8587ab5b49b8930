/**
 * The two shapes (`Trace.Sphere`, `Trace.Plane`) and the hit record (`Trace.HitRecord`)
 * their intersections return. Both intersect in the shape's own frame: the world ray is
 * mapped through the inverse transformation, met with the unit sphere or the plane z = 0,
 * and the hit is mapped back with the transformation.
 */
module Shapes {
  import opened Wrappers
  import opened Vectors
  import opened Transformations
  import opened Points
  import Normals
  import opened Rays
  import opened SurfaceCoordinates
  import opened Materials

  /** `Math.Sqrt`, `Math.Atan2` and `Math.Acos` of the .NET runtime, left uninterpreted. */
  datatype MathLib = MathLib(Sqrt: real -> real, Atan2: (real, real) -> real, Acos: real -> real)

  /** `Math.PI`. */
  const Pi: real := 3.141592653589793

  /** What the proofs assume of the runtime: a square root, and the ranges of atan2 and acos. */
  ghost predicate Sound(math: MathLib) {
    (forall x :: x >= 0.0 ==> math.Sqrt(x) >= 0.0 && Square(math.Sqrt(x)) == x)
    && (forall y, x :: -Pi <= math.Atan2(y, x) <= Pi)
    && (forall z :: 0.0 <= math.Acos(z) <= Pi)
  }

  datatype Shape =
    | Sphere(Transformation: Transformation, Material: Material)
    | Plane(Transformation: Transformation, Material: Material)

  /** `Sphere()`, `Sphere(transformation)`: the identity transformation and the default material. */
  function NewSphere(transformation: Transformation := IdentityTransformation(), material: Material := NewMaterial()): (s: Shape)
    ensures s.Sphere? && s.Transformation == transformation && s.Material == material
  {
    Sphere(transformation, material)
  }

  /** `Plane()`, `Plane(material)`, `Plane(transformation)`: the same defaults. */
  function NewPlane(transformation: Transformation := IdentityTransformation(), material: Material := NewMaterial()): (s: Shape)
    ensures s.Plane? && s.Transformation == transformation && s.Material == material
  {
    Plane(transformation, material)
  }

  datatype HitRecord = HitRecord(
    WorldPoint: Point,
    Normal: Normals.Normal,
    SurfacePoint: Vec2d,
    T: real,
    Ray: Ray,
    Shape: Shape)

  /**
   * Both matrices of the shape's transformation keep w = 1, so mapping a point never
   * divides by zero.
   */
  predicate WellFormed(s: Shape) {
    IsAffine(s.Transformation.M) && IsAffine(s.Transformation.InvM)
  }

  /** The ray in the shape's own frame: `ray.transform(Transformation.inverse())`. */
  function ObjectRay(s: Shape, ray: Ray): (r: Ray)
    requires WellFormed(s)
    ensures PointW(Inverse(s.Transformation), ray.Origin) == 1.0
    ensures r == Transform(ray, Inverse(s.Transformation))
  {
    AffinePointW(Inverse(s.Transformation), ray.Origin);
    Transform(ray, Inverse(s.Transformation))
  }

  /** `t` lies strictly inside the ray's interval. */
  predicate InInterval(r: Ray, t: real) {
    r.Tmin < t && Below(t, r.Tmax)
  }

  // ----- Sphere -----

  /** The coefficient a of a t^2 + b t + c = 0 for the ray against the unit sphere. */
  function SphereA(r: Ray): real {
    SquaredNorm(r.Dir)
  }

  function SphereB(r: Ray): real {
    2.0 * Dot(ToVec(r.Origin), r.Dir)
  }

  function SphereC(r: Ray): real {
    SquaredNorm(ToVec(r.Origin)) - 1.0
  }

  function Discriminant(r: Ray): real {
    Square(SphereB(r)) - 4.0 * Product(SphereA(r), SphereC(r))
  }

  /** The root the sphere tries first, (-b - sqrt(delta)) / 2a. */
  function NearRoot(r: Ray, sqrtDelta: real): real
    requires SphereA(r) != 0.0
  {
    (-SphereB(r) - sqrtDelta) / (2.0 * SphereA(r))
  }

  /** The other root, (-b + sqrt(delta)) / 2a. */
  function FarRoot(r: Ray, sqrtDelta: real): real
    requires SphereA(r) != 0.0
  {
    (-SphereB(r) + sqrtDelta) / (2.0 * SphereA(r))
  }

  /** A positive discriminant needs a direction that is not zero. */
  lemma PositiveDiscriminant(r: Ray)
    requires Discriminant(r) > 0.0
    ensures SphereA(r) > 0.0
  {
    if r.Dir == Vec(0.0, 0.0, 0.0) {
      assert r == Ray(r.Origin, Vec(0.0, 0.0, 0.0), r.Tmin, r.Tmax, r.Depth);
      DirectionlessA(r.Origin, r.Tmin, r.Tmax, r.Depth);
      DirectionlessB(r.Origin, r.Tmin, r.Tmax, r.Depth);
      ZeroCoefficients(r);
      assert false;
    } else {
      SquaredNormPositive(r.Dir);
    }
  }

  lemma DirectionlessA(o: Point, tmin: real, tmax: Bound, depth: int)
    ensures SphereA(Ray(o, Vec(0.0, 0.0, 0.0), tmin, tmax, depth)) == 0.0
  {
  }

  lemma DirectionlessB(o: Point, tmin: real, tmax: Bound, depth: int)
    ensures SphereB(Ray(o, Vec(0.0, 0.0, 0.0), tmin, tmax, depth)) == 0.0
  {
  }

  lemma ZeroCoefficients(r: Ray)
    requires SphereA(r) == 0.0 && SphereB(r) == 0.0
    ensures Discriminant(r) == 0.0
  {
    var a, b := SphereA(r), SphereB(r);
    assert Square(b) == 0.0 * b;
    assert Product(a, SphereC(r)) == 0.0 * SphereC(r);
  }

  lemma SquaredNormPositive(v: Vec)
    requires v != Vec(0.0, 0.0, 0.0)
    ensures SquaredNorm(v) > 0.0
  {
    SquareFacts(v.X); SquareFacts(v.Y); SquareFacts(v.Z);
    if v.X != 0.0 {
      SquarePositive(v.X);
    } else if v.Y != 0.0 {
      SquarePositive(v.Y);
    } else {
      SquarePositive(v.Z);
    }
    assert SquaredNorm(v) == Square(v.X) + Square(v.Y) + Square(v.Z);
  }

  function Square(x: real): real {
    x * x
  }

  function Product(x: real, y: real): real {
    x * y
  }

  /** Stated on `Square` and proved through two distinct factors, which the solver handles better than x * x. */
  lemma SquarePositive(x: real)
    requires x != 0.0
    ensures Square(x) > 0.0
  {
    var half := x / 2.0;
    SameSignProduct(half, x);
    assert Square(x) == 2.0 * (half * x);
  }

  lemma SameSignProduct(a: real, b: real)
    requires (a > 0.0 && b > 0.0) || (a < 0.0 && b < 0.0)
    ensures a * b > 0.0
  {
  }

  /**
   * `sphere_normal`: the point itself seen as a normal, turned so that it points against
   * the ray's direction.
   */
  function SphereNormal(p: Point, rayDir: Vec): (n: Normals.Normal)
    ensures n == Normals.Normal(p.X, p.Y, p.Z) || n == Normals.Neg(Normals.Normal(p.X, p.Y, p.Z))
    ensures Normals.DotVec(n, rayDir) <= 0.0
  {
    var result := Normals.Normal(p.X, p.Y, p.Z);
    NegatedDot(p, rayDir);
    if Dot(ToVec(p), rayDir) < 0.0 then result else Normals.Neg(result)
  }

  lemma NegatedDot(p: Point, v: Vec)
    ensures Normals.DotVec(Normals.Normal(p.X, p.Y, p.Z), v) == Dot(ToVec(p), v)
    ensures Normals.DotVec(Normals.Neg(Normals.Normal(p.X, p.Y, p.Z)), v) == -Dot(ToVec(p), v)
  {
    assert (-p.X) * v.X == -(p.X * v.X);
    assert (-p.Y) * v.Y == -(p.Y * v.Y);
    assert (-p.Z) * v.Z == -(p.Z * v.Z);
  }

  /**
   * `sphere_point_to_uv`: the longitude atan2(y, x) / 2 pi, moved into [0, 1) when
   * negative, and the colatitude acos(z) / pi.
   */
  function SpherePointToUv(p: Point, math: MathLib): Vec2d {
    var u := math.Atan2(p.Y, p.X) / (2.0 * Pi);
    Vec2d(if u < 0.0 then u + 1.0 else u, math.Acos(p.Z) / Pi)
  }

  /** With a sound library the surface coordinates of every point lie in [0, 1) x [0, 1]. */
  lemma SphereUvInUnitSquare(p: Point, math: MathLib)
    requires Sound(math)
    ensures 0.0 <= SpherePointToUv(p, math).U < 1.0
    ensures 0.0 <= SpherePointToUv(p, math).V <= 1.0
  {
    var a := math.Atan2(p.Y, p.X);
    assert -Pi <= a <= Pi;
    assert 0.0 <= math.Acos(p.Z) <= Pi;
  }

  /** The record of a sphere hit at `t` of the object-space ray. */
  function SphereRecord(s: Shape, ray: Ray, t: real, math: MathLib): (h: HitRecord)
    requires WellFormed(s)
    ensures h.T == t && h.Ray == ray && h.Shape == s
  {
    var invRay := ObjectRay(s, ray);
    var hitPoint := At(invRay, t);
    AffinePointW(s.Transformation, hitPoint);
    HitRecord(
      TransformPoint(s.Transformation, hitPoint),
      TransformNormal(s.Transformation, SphereNormal(hitPoint, invRay.Dir)),
      SpherePointToUv(hitPoint, math),
      t, ray, s)
  }

  /**
   * `Sphere.ray_intersection`: no hit unless the discriminant is positive; otherwise the
   * nearer root if it lies strictly inside the ray's interval, else the farther one if it
   * does, else no hit.
   */
  function SphereIntersection(s: Shape, ray: Ray, math: MathLib): (hit: Option<HitRecord>)
    requires s.Sphere? && WellFormed(s)
    ensures hit.Some? ==> hit.value.Ray == ray && hit.value.Shape == s
    ensures hit.Some? ==> InInterval(ray, hit.value.T)
    ensures Discriminant(ObjectRay(s, ray)) <= 0.0 ==> hit.None?
  {
    var invRay := ObjectRay(s, ray);
    var delta := Discriminant(invRay);
    if delta <= 0.0 then None
    else
      PositiveDiscriminant(invRay);
      var sqrtDelta := math.Sqrt(delta);
      var tMin := NearRoot(invRay, sqrtDelta);
      var tMax := FarRoot(invRay, sqrtDelta);
      if InInterval(invRay, tMin) then Some(SphereRecord(s, ray, tMin, math))
      else if InInterval(invRay, tMax) then Some(SphereRecord(s, ray, tMax, math))
      else None
  }

  /**
   * `Sphere.quick_ray_intersection`: the same test without the record. Its b is written
   * (2 o) . d, which over the reals is the coefficient 2 (o . d) of the full test
   * (`DoubledOrigin`), so the same coefficient functions serve both.
   */
  function SphereQuickIntersection(s: Shape, ray: Ray, math: MathLib): bool
    requires s.Sphere? && WellFormed(s)
  {
    var invRay := ObjectRay(s, ray);
    var delta := Discriminant(invRay);
    if delta <= 0.0 then false
    else
      PositiveDiscriminant(invRay);
      var sqrtDelta := math.Sqrt(delta);
      InInterval(invRay, NearRoot(invRay, sqrtDelta)) || InInterval(invRay, FarRoot(invRay, sqrtDelta))
  }

  /** (2 o) . d = 2 (o . d). */
  lemma DoubledOrigin(r: Ray)
    ensures Dot(Vectors.ScaleLeft(2.0, ToVec(r.Origin)), r.Dir) == SphereB(r)
  {
  }

  // ----- What the sphere's roots mean -----

  /** A point of the unit sphere centred at the origin. */
  predicate OnUnitSphere(p: Point) {
    SquaredNorm(ToVec(p)) == 1.0
  }

  /** The quadratic a t^2 + b t + c. */
  function Quadratic(a: real, b: real, c: real, t: real): real {
    Product(a, Square(t)) + Product(b, t) + c
  }

  /** Along the ray, |origin + t dir|^2 - 1 is the quadratic whose coefficients the sphere computes. */
  lemma SphereEquation(r: Ray, t: real)
    ensures SquaredNorm(ToVec(At(r, t))) - 1.0 == Quadratic(SphereA(r), SphereB(r), SphereC(r), t)
  {
    SquaredNormAlong(r, t);
    SphereCoefficients(r);
    QuadraticAlong(r.Origin.X, r.Origin.Y, r.Origin.Z, r.Dir.X, r.Dir.Y, r.Dir.Z, t, SphereA(r), SphereB(r), SphereC(r));
  }

  lemma SquaredNormAlong(r: Ray, t: real)
    ensures SquaredNorm(ToVec(At(r, t)))
      == Square(r.Origin.X + r.Dir.X * t) + Square(r.Origin.Y + r.Dir.Y * t) + Square(r.Origin.Z + r.Dir.Z * t)
  {
    SquaredNormOfSquares(ToVec(At(r, t)));
  }

  lemma SphereCoefficients(r: Ray)
    ensures SphereA(r) == Square(r.Dir.X) + Square(r.Dir.Y) + Square(r.Dir.Z)
    ensures SphereB(r) == 2.0 * (r.Origin.X * r.Dir.X + r.Origin.Y * r.Dir.Y + r.Origin.Z * r.Dir.Z)
    ensures SphereC(r) == Square(r.Origin.X) + Square(r.Origin.Y) + Square(r.Origin.Z) - 1.0
  {
    SquaredNormOfSquares(r.Dir);
    SquaredNormOfSquares(ToVec(r.Origin));
  }

  lemma SquaredNormOfSquares(v: Vec)
    ensures SquaredNorm(v) == Square(v.X) + Square(v.Y) + Square(v.Z)
  {
  }

  lemma QuadraticAlong(ox: real, oy: real, oz: real, dx: real, dy: real, dz: real, t: real, a: real, b: real, c: real)
    requires a == Square(dx) + Square(dy) + Square(dz)
    requires b == 2.0 * (ox * dx + oy * dy + oz * dz)
    requires c == Square(ox) + Square(oy) + Square(oz) - 1.0
    ensures Square(ox + dx * t) + Square(oy + dy * t) + Square(oz + dz * t) - 1.0 == Quadratic(a, b, c, t)
  {
    ExpandAlong(ox, dx, t);
    ExpandAlong(oy, dy, t);
    ExpandAlong(oz, dz, t);
    DistributeThree(Square(dx), Square(dy), Square(dz), Square(t), a);
    DistributeThree(Product(ox, dx), Product(oy, dy), Product(oz, dz), 2.0 * t, b / 2.0);
    assert Product(b, t) == Product(b / 2.0, 2.0 * t);
  }

  lemma ExpandAlong(o: real, d: real, t: real)
    ensures Square(o + d * t) == Square(o) + 2.0 * t * Product(o, d) + Product(Square(d), Square(t))
  {
  }

  lemma DistributeThree(x: real, y: real, z: real, w: real, sum: real)
    requires sum == x + y + z
    ensures Product(sum, w) == Product(x, w) + Product(y, w) + Product(z, w)
  {
  }

  /** (-b -+ sqrt(delta)) / 2a solve a t^2 + b t + c = 0 when sq^2 = b^2 - 4ac. */
  lemma RootSolves(a: real, b: real, c: real, sq: real, t: real)
    requires a != 0.0 && Square(sq) == Square(b) - 4.0 * Product(a, c)
    requires t == (-b - sq) / (2.0 * a) || t == (-b + sq) / (2.0 * a)
    ensures Quadratic(a, b, c, t) == 0.0
  {
    var u := 2.0 * a * t + b;
    if t == (-b - sq) / (2.0 * a) {
      QuotientTimesDivisor(-b - sq, 2.0 * a);
      assert u == -sq;
    } else {
      QuotientTimesDivisor(-b + sq, 2.0 * a);
      assert u == sq;
    }
    assert Square(u) == Square(sq);
    CompletedSquare(a, b, c, t);
    NonZeroFactor(4.0 * a, Quadratic(a, b, c, t));
  }

  /** Conversely, every root of a t^2 + b t + c is one of the two the sphere computes. */
  lemma RootsOnly(a: real, b: real, c: real, sq: real, t: real)
    requires a != 0.0 && Square(sq) == Square(b) - 4.0 * Product(a, c)
    requires Quadratic(a, b, c, t) == 0.0
    ensures t == (-b - sq) / (2.0 * a) || t == (-b + sq) / (2.0 * a)
  {
    CompletedSquare(a, b, c, t);
    ZeroProduct(4.0 * a, Quadratic(a, b, c, t));
    EqualSquares(2.0 * a * t + b, sq);
    RootFromShifted(a, b, sq, t);
  }

  lemma RootFromShifted(a: real, b: real, sq: real, t: real)
    requires a != 0.0 && (2.0 * a * t + b == sq || 2.0 * a * t + b == -sq)
    ensures t == (-b - sq) / (2.0 * a) || t == (-b + sq) / (2.0 * a)
  {
    if 2.0 * a * t + b == -sq {
      QuotientOfProduct(-b - sq, 2.0 * a, t);
    } else {
      QuotientOfProduct(-b + sq, 2.0 * a, t);
    }
  }

  /** With a > 0 and a non-negative square root the near root comes first. */
  lemma RootsOrdered(a: real, b: real, sq: real)
    requires a > 0.0 && sq >= 0.0
    ensures (-b - sq) / (2.0 * a) <= (-b + sq) / (2.0 * a)
  {
    QuotientTimesDivisor(-b - sq, 2.0 * a);
    QuotientTimesDivisor(-b + sq, 2.0 * a);
    var lo, hi := (-b - sq) / (2.0 * a), (-b + sq) / (2.0 * a);
    if lo > hi {
      ScaleStrict(lo, hi, 2.0 * a);
      assert false;
    }
  }

  /** 4a (a t^2 + b t + c) = (2at + b)^2 - (b^2 - 4ac). */
  lemma CompletedSquare(a: real, b: real, c: real, t: real)
    ensures Product(4.0 * a, Quadratic(a, b, c, t)) == Square(2.0 * a * t + b) - (Square(b) - 4.0 * Product(a, c))
  {
  }

  lemma QuotientTimesDivisor(x: real, y: real)
    requires y != 0.0
    ensures x / y * y == x
  {
  }

  lemma QuotientOfProduct(x: real, y: real, t: real)
    requires y != 0.0 && y * t == x
    ensures t == x / y
  {
  }

  lemma ZeroProduct(x: real, y: real)
    requires y == 0.0
    ensures Product(x, y) == 0.0
  {
  }

  lemma NonZeroFactor(x: real, y: real)
    requires x != 0.0 && Product(x, y) == 0.0
    ensures y == 0.0
  {
  }

  lemma EqualSquares(u: real, v: real)
    requires Square(u) == Square(v)
    ensures u == v || u == -v
  {
    assert Product(u - v, u + v) == Square(u) - Square(v);
    if u != v {
      NonZeroFactor(u - v, u + v);
    }
  }

  lemma ScaleStrict(x: real, y: real, k: real)
    requires x > y && k > 0.0
    ensures x * k > y * k
  {
  }

  /** Every sphere hit lies on the unit sphere of the shape's own frame. */
  lemma SphereHitOnSurface(s: Shape, ray: Ray, math: MathLib)
    requires s.Sphere? && WellFormed(s) && Sound(math)
    ensures var hit := SphereIntersection(s, ray, math);
      hit.Some? ==> OnUnitSphere(At(ObjectRay(s, ray), hit.value.T))
  {
    var invRay := ObjectRay(s, ray);
    var hit := SphereIntersection(s, ray, math);
    if hit.Some? {
      var delta := Discriminant(invRay);
      PositiveDiscriminant(invRay);
      var sq := math.Sqrt(delta);
      RootSolves(SphereA(invRay), SphereB(invRay), SphereC(invRay), sq, hit.value.T);
      SphereEquation(invRay, hit.value.T);
    }
  }

  /**
   * The sphere reports its first crossing: whenever the ray meets the sphere at some t
   * inside its interval and the discriminant is positive, there is a hit and it is no
   * later than t. (A ray that only grazes the sphere has a zero discriminant and is a miss.)
   */
  lemma SphereFirstCrossing(s: Shape, ray: Ray, math: MathLib, t: real)
    requires s.Sphere? && WellFormed(s) && Sound(math)
    requires InInterval(ray, t) && OnUnitSphere(At(ObjectRay(s, ray), t))
    requires Discriminant(ObjectRay(s, ray)) > 0.0
    ensures SphereIntersection(s, ray, math).Some?
    ensures SphereIntersection(s, ray, math).value.T <= t
  {
    var invRay := ObjectRay(s, ray);
    var delta := Discriminant(invRay);
    PositiveDiscriminant(invRay);
    var sq := math.Sqrt(delta);
    SphereEquation(invRay, t);
    RootsOnly(SphereA(invRay), SphereB(invRay), SphereC(invRay), sq, t);
    RootsOrdered(SphereA(invRay), SphereB(invRay), sq);
  }

  // ----- Plane -----

  /** The fractional part `x - floor(x)`: in [0, 1), and it differs from `x` by an integer. */
  function Fraction(x: real): (f: real)
    ensures 0.0 <= f < 1.0
    ensures (x - f).Floor as real == x - f
  {
    x - x.Floor as real
  }

  /** The plane's normal: +z against a ray going down, -z otherwise. */
  function PlaneNormal(dir: Vec): (n: Normals.Normal)
    ensures n.X == 0.0 && n.Y == 0.0 && (n.Z == 1.0 || n.Z == -1.0)
    ensures dir.Z != 0.0 ==> Normals.DotVec(n, dir) < 0.0
  {
    Normals.Normal(0.0, 0.0, if dir.Z >= 0.0 then -1.0 else 1.0)
  }

  /** The record of a plane hit at `t` of the object-space ray. */
  function PlaneRecord(s: Shape, ray: Ray, t: real): (h: HitRecord)
    requires WellFormed(s)
    ensures h.T == t && h.Ray == ray && h.Shape == s
    ensures 0.0 <= h.SurfacePoint.U < 1.0 && 0.0 <= h.SurfacePoint.V < 1.0
  {
    var invRay := ObjectRay(s, ray);
    var hitPoint := At(invRay, t);
    AffinePointW(s.Transformation, hitPoint);
    HitRecord(
      TransformPoint(s.Transformation, hitPoint),
      TransformNormal(s.Transformation, PlaneNormal(invRay.Dir)),
      Vec2d(Fraction(hitPoint.X), Fraction(hitPoint.Y)),
      t, ray, s)
  }

  /** The smallest |dir.z| the plane accepts, 1e-5. */
  const PlaneEpsilon: real := 0.00001

  /**
   * `Plane.ray_intersection`: no hit for a ray (nearly) parallel to the plane, nor when
   * t = -origin.z / dir.z is not strictly inside the ray's interval.
   */
  function PlaneIntersection(s: Shape, ray: Ray): (hit: Option<HitRecord>)
    requires s.Plane? && WellFormed(s)
    ensures hit.Some? ==> hit.value.Ray == ray && hit.value.Shape == s
    ensures hit.Some? ==> InInterval(ray, hit.value.T)
    ensures Abs(ObjectRay(s, ray).Dir.Z) < PlaneEpsilon ==> hit.None?
  {
    var invRay := ObjectRay(s, ray);
    if Abs(invRay.Dir.Z) < PlaneEpsilon then None
    else
      var t := -invRay.Origin.Z / invRay.Dir.Z;
      if t <= invRay.Tmin || !Below(t, invRay.Tmax) then None
      else Some(PlaneRecord(s, ray, t))
  }

  /** `Plane.quick_ray_intersection`. */
  function PlaneQuickIntersection(s: Shape, ray: Ray): bool
    requires s.Plane? && WellFormed(s)
  {
    var invRay := ObjectRay(s, ray);
    if Abs(invRay.Dir.Z) < PlaneEpsilon then false
    else
      var t := -invRay.Origin.Z / invRay.Dir.Z;
      invRay.Tmin < t && Below(t, invRay.Tmax)
  }

  // ----- Dispatch -----

  /** `shape.ray_intersection(ray)`. */
  function RayIntersection(s: Shape, ray: Ray, math: MathLib): (hit: Option<HitRecord>)
    requires WellFormed(s)
    ensures hit.Some? ==> hit.value.Ray == ray && hit.value.Shape == s
    ensures hit.Some? ==> InInterval(ray, hit.value.T)
  {
    match s
    case Sphere(_, _) => SphereIntersection(s, ray, math)
    case Plane(_, _) => PlaneIntersection(s, ray)
  }

  /** `shape.quick_ray_intersection(ray)`. */
  function QuickRayIntersection(s: Shape, ray: Ray, math: MathLib): bool
    requires WellFormed(s)
  {
    match s
    case Sphere(_, _) => SphereQuickIntersection(s, ray, math)
    case Plane(_, _) => PlaneQuickIntersection(s, ray)
  }
  /** Every plane hit lies on the plane z = 0 of the shape's own frame. */
  lemma PlaneHitOnPlane(s: Shape, ray: Ray)
    requires s.Plane? && WellFormed(s)
    ensures var hit := PlaneIntersection(s, ray);
      hit.Some? ==> At(ObjectRay(s, ray), hit.value.T).Z == 0.0
  {
    var hit := PlaneIntersection(s, ray);
    if hit.Some? {
      PlaneHitT(s, ray);
      CrossingAtZero(ObjectRay(s, ray), hit.value.T);
    }
  }

  /** The t a plane reports is where the object-space ray's z reaches 0. */
  lemma PlaneHitT(s: Shape, ray: Ray)
    requires s.Plane? && WellFormed(s) && PlaneIntersection(s, ray).Some?
    ensures var invRay := ObjectRay(s, ray);
      invRay.Dir.Z != 0.0 && PlaneIntersection(s, ray).value.T == -invRay.Origin.Z / invRay.Dir.Z
  {
  }

  /** At t = -origin.z / dir.z a ray is at z = 0. */
  lemma CrossingAtZero(r: Ray, t: real)
    requires r.Dir.Z != 0.0 && t == -r.Origin.Z / r.Dir.Z
    ensures At(r, t).Z == 0.0
  {
    QuotientTimesDivisor(-r.Origin.Z, r.Dir.Z);
    assert t * r.Dir.Z == -r.Origin.Z;
    assert At(r, t).Z == r.Origin.Z + r.Dir.Z * t;
    assert r.Dir.Z * t == t * r.Dir.Z;
  }

  /**
   * A ray that is not nearly parallel to the plane meets it at one t only; when that t
   * lies inside the ray's interval the plane reports exactly it.
   */
  lemma PlaneOnlyCrossing(s: Shape, ray: Ray, t: real)
    requires s.Plane? && WellFormed(s)
    requires Abs(ObjectRay(s, ray).Dir.Z) >= PlaneEpsilon
    requires InInterval(ray, t) && At(ObjectRay(s, ray), t).Z == 0.0
    ensures PlaneIntersection(s, ray).Some? && PlaneIntersection(s, ray).value.T == t
  {
    var invRay := ObjectRay(s, ray);
    QuotientOfProduct(-invRay.Origin.Z, invRay.Dir.Z, t);
  }

  /** The quick tests answer whether the full intersections find a hit. */
  lemma QuickAgrees(s: Shape, ray: Ray, math: MathLib)
    requires WellFormed(s)
    ensures QuickRayIntersection(s, ray, math) == RayIntersection(s, ray, math).Some?
  {
  }

  // ----- The hit seen from the world -----

  /** Mapping the object-space ray back with the transformation gives the world ray again. */
  lemma ObjectRayRoundTrip(s: Shape, ray: Ray)
    requires WellFormed(s) && IsExactlyConsistent(s.Transformation)
    ensures PointW(s.Transformation, ObjectRay(s, ray).Origin) != 0.0
    ensures Transform(ObjectRay(s, ray), s.Transformation) == ray
  {
    var t := s.Transformation;
    TransformCompose(ray, Inverse(t), t);
    TransformIdentity(ray, Compose(t, Inverse(t)));
  }

  /** The world point of a hit is the point the world ray reaches at the hit's t. */
  lemma HitOnWorldRay(s: Shape, ray: Ray, math: MathLib)
    requires WellFormed(s) && IsExactlyConsistent(s.Transformation)
    ensures var hit := RayIntersection(s, ray, math);
      hit.Some? ==> hit.value.WorldPoint == At(ray, hit.value.T)
  {
    var hit := RayIntersection(s, ray, math);
    if hit.Some? {
      var invRay := ObjectRay(s, ray);
      ObjectRayRoundTrip(s, ray);
      TransformAt(invRay, s.Transformation, hit.value.T);
      assert hit.value.WorldPoint == TransformPoint(s.Transformation, At(invRay, hit.value.T));
    }
  }

  /** The normal of a hit points against the ray that found it, in the world as in the shape's frame. */
  lemma NormalFacesRay(s: Shape, ray: Ray, math: MathLib)
    requires WellFormed(s) && IsInvertible(s.Transformation)
    ensures var hit := RayIntersection(s, ray, math);
      hit.Some? ==> Normals.DotVec(hit.value.Normal, ray.Dir) <= 0.0
  {
    var hit := RayIntersection(s, ray, math);
    if hit.Some? {
      var invRay := ObjectRay(s, ray);
      ObjectRayRoundTrip(s, ray);
      var n := if s.Sphere? then SphereNormal(At(invRay, hit.value.T), invRay.Dir) else PlaneNormal(invRay.Dir);
      assert hit.value.Normal == TransformNormal(s.Transformation, n);
      TransformNormalPreservesDot(s.Transformation, n, invRay.Dir);
    }
  }

  // ----- The tests' hits -----

  /** An untransformed shape sees the world ray itself. */
  lemma IdentityObjectRay(s: Shape, ray: Ray)
    requires s.Transformation == IdentityTransformation()
    ensures WellFormed(s) && ObjectRay(s, ray) == ray
  {
    TransformIdentity(ray, Inverse(s.Transformation));
  }

  /** The square root of 4 of a sound library is 2. */
  lemma SqrtOfFour(math: MathLib)
    requires Sound(math)
    ensures math.Sqrt(4.0) == 2.0
  {
    assert Square(2.0) == 4.0;
    EqualSquares(math.Sqrt(4.0), 2.0);
  }

  /** The discriminant and the roots, once the three coefficients are known. */
  lemma CoefficientsGiven(r: Ray, a: real, b: real, c: real, sq: real)
    requires SphereA(r) == a && SphereB(r) == b && SphereC(r) == c
    ensures Discriminant(r) == Square(b) - 4.0 * Product(a, c)
    ensures a != 0.0 ==> NearRoot(r, sq) == (-b - sq) / (2.0 * a) && FarRoot(r, sq) == (-b + sq) / (2.0 * a)
  {
  }

  /** The three coefficients of a ray given by its six components. */
  lemma CoefficientsOfComponents(ray: Ray, ox: real, oy: real, oz: real, dx: real, dy: real, dz: real)
    requires ray.Origin == Point(ox, oy, oz) && ray.Dir == Vec(dx, dy, dz)
    ensures SphereA(ray) == Square(dx) + Square(dy) + Square(dz)
    ensures SphereB(ray) == 2.0 * (Product(ox, dx) + Product(oy, dy) + Product(oz, dz))
    ensures SphereC(ray) == Square(ox) + Square(oy) + Square(oz) - 1.0
  {
  }

  /** Under the identity the record carries the object-space hit point and its normal. */
  lemma IdentitySphereRecord(s: Shape, ray: Ray, t: real, math: MathLib)
    requires s.Transformation == IdentityTransformation()
    ensures WellFormed(s)
    ensures SphereRecord(s, ray, t, math).WorldPoint == At(ray, t)
    ensures SphereRecord(s, ray, t, math).Normal == SphereNormal(At(ray, t), ray.Dir)
  {
    IdentityObjectRay(s, ray);
    IdentityActs(At(ray, t), ray.Dir, SphereNormal(At(ray, t), ray.Dir));
  }

  /** Under the identity, with the coefficients and the root of the discriminant known, the choice of root. */
  lemma IdentityRootChoice(s: Shape, ray: Ray, math: MathLib, a: real, b: real, c: real, sq: real)
    requires s.Sphere? && s.Transformation == IdentityTransformation()
    requires SphereA(ray) == a && SphereB(ray) == b && SphereC(ray) == c
    requires Square(b) - 4.0 * Product(a, c) > 0.0 && math.Sqrt(Square(b) - 4.0 * Product(a, c)) == sq
    ensures WellFormed(s) && a != 0.0
    ensures var near, far := (-b - sq) / (2.0 * a), (-b + sq) / (2.0 * a);
      SphereIntersection(s, ray, math) ==
        if InInterval(ray, near) then Some(SphereRecord(s, ray, near, math))
        else if InInterval(ray, far) then Some(SphereRecord(s, ray, far, math))
        else None
  {
    IdentityObjectRay(s, ray);
    CoefficientsGiven(ray, a, b, c, sq);
    PositiveDiscriminant(ray);
  }

  /** Under the identity a ray whose discriminant is not positive misses the sphere. */
  lemma IdentityMiss(s: Shape, ray: Ray, math: MathLib)
    requires s.Sphere? && s.Transformation == IdentityTransformation() && Discriminant(ray) <= 0.0
    ensures WellFormed(s) && SphereIntersection(s, ray, math).None?
  {
    IdentityObjectRay(s, ray);
  }

  lemma AboveRoots(s: Shape, ray: Ray, math: MathLib)
    requires s.Sphere? && s.Transformation == IdentityTransformation() && Sound(math)
    requires ray == NewRay(Point(0.0, 0.0, 2.0), Vec(0.0, 0.0, -1.0))
    ensures WellFormed(s) && SphereIntersection(s, ray, math) == Some(SphereRecord(s, ray, 1.0, math))
  {
    CoefficientsOfComponents(ray, 0.0, 0.0, 2.0, 0.0, 0.0, -1.0);
    SqrtOfFour(math);
    IdentityRootChoice(s, ray, math, 1.0, -4.0, 3.0, 2.0);
  }

  lemma AboveRecord(s: Shape, ray: Ray, math: MathLib)
    requires s.Transformation == IdentityTransformation()
    requires ray == NewRay(Point(0.0, 0.0, 2.0), Vec(0.0, 0.0, -1.0))
    ensures WellFormed(s)
    ensures SphereRecord(s, ray, 1.0, math).WorldPoint == Point(0.0, 0.0, 1.0)
    ensures SphereRecord(s, ray, 1.0, math).Normal == Normals.Normal(0.0, 0.0, 1.0)
  {
    IdentitySphereRecord(s, ray, 1.0, math);
    assert At(ray, 1.0) == Point(0.0, 0.0, 1.0);
    assert SphereNormal(Point(0.0, 0.0, 1.0), ray.Dir) == Normals.Normal(0.0, 0.0, 1.0);
  }

  /** A ray from (0, 0, 2) going down meets the unit sphere at its north pole, at t = 1. */
  lemma SphereHitFromAbove(s: Shape, ray: Ray, math: MathLib)
    requires s.Sphere? && s.Transformation == IdentityTransformation() && Sound(math)
    requires ray == NewRay(Point(0.0, 0.0, 2.0), Vec(0.0, 0.0, -1.0))
    ensures WellFormed(s)
    ensures var hit := SphereIntersection(s, ray, math);
      hit.Some? && hit.value.T == 1.0 && hit.value.WorldPoint == Point(0.0, 0.0, 1.0)
      && hit.value.Normal == Normals.Normal(0.0, 0.0, 1.0)
  {
    AboveRoots(s, ray, math);
    AboveRecord(s, ray, math);
  }

  /** A ray leaving from the centre: b = 0 and c = -1. */
  lemma CentredCoefficients(ray: Ray)
    requires ray.Origin == Point(0.0, 0.0, 0.0)
    ensures SphereB(ray) == 0.0 && SphereC(ray) == -1.0
  {
    CentredB(ray.Dir, ray.Tmin, ray.Tmax, ray.Depth);
    CentredC(ray);
    assert ray == Ray(Point(0.0, 0.0, 0.0), ray.Dir, ray.Tmin, ray.Tmax, ray.Depth);
  }

  lemma AlongX(ray: Ray)
    requires ray.Dir == Vec(1.0, 0.0, 0.0)
    ensures SphereA(ray) == 1.0
  {
  }

  lemma CentredB(d: Vec, tmin: real, tmax: Bound, depth: int)
    ensures SphereB(Ray(Point(0.0, 0.0, 0.0), d, tmin, tmax, depth)) == 0.0
  {
    assert ToVec(Point(0.0, 0.0, 0.0)) == Vec(0.0, 0.0, 0.0);
    DotZero(d);
  }

  lemma DotZero(d: Vec)
    ensures Dot(Vec(0.0, 0.0, 0.0), d) == 0.0
  {
  }

  lemma CentredC(r: Ray)
    requires r.Origin == Point(0.0, 0.0, 0.0)
    ensures SphereC(r) == -1.0
  {
    ZeroNorm(r.Origin);
    UnitOffset(r);
  }

  lemma UnitOffset(r: Ray)
    requires SquaredNorm(ToVec(r.Origin)) == 0.0
    ensures SphereC(r) == -1.0
  {
  }

  lemma ZeroNorm(p: Point)
    requires p == Point(0.0, 0.0, 0.0)
    ensures SquaredNorm(ToVec(p)) == 0.0
  {
    assert ToVec(p) == Vec(0.0, 0.0, 0.0);
  }

  lemma InsideRoots(s: Shape, ray: Ray, math: MathLib)
    requires s.Sphere? && s.Transformation == IdentityTransformation() && Sound(math)
    requires SphereA(ray) == 1.0 && SphereB(ray) == 0.0 && SphereC(ray) == -1.0
    requires ray.Tmin == DefaultTmin && ray.Tmax == Infinity
    ensures WellFormed(s) && SphereIntersection(s, ray, math) == Some(SphereRecord(s, ray, 1.0, math))
  {
    SqrtOfFour(math);
    IdentityRootChoice(s, ray, math, 1.0, 0.0, -1.0, 2.0);
  }

  lemma InsideRecord(s: Shape, ray: Ray, math: MathLib)
    requires s.Transformation == IdentityTransformation()
    requires At(ray, 1.0) == Point(1.0, 0.0, 0.0) && ray.Dir == Vec(1.0, 0.0, 0.0)
    ensures WellFormed(s)
    ensures SphereRecord(s, ray, 1.0, math).WorldPoint == Point(1.0, 0.0, 0.0)
    ensures SphereRecord(s, ray, 1.0, math).Normal == Normals.Normal(-1.0, 0.0, 0.0)
  {
    IdentitySphereRecord(s, ray, 1.0, math);
    InsideNormal();
  }

  lemma InsideNormal()
    ensures SphereNormal(Point(1.0, 0.0, 0.0), Vec(1.0, 0.0, 0.0)) == Normals.Normal(-1.0, 0.0, 0.0)
  {
  }

  lemma InsideAt(ray: Ray)
    requires ray.Origin == Point(0.0, 0.0, 0.0) && ray.Dir == Vec(1.0, 0.0, 0.0)
    ensures At(ray, 1.0) == Point(1.0, 0.0, 0.0)
  {
  }

  /** From the centre the ray leaves through (1, 0, 0) at t = 1, and the normal is turned inward. */
  lemma SphereHitFromInside(s: Shape, ray: Ray, math: MathLib)
    requires s.Sphere? && s.Transformation == IdentityTransformation() && Sound(math)
    requires ray.Origin == Point(0.0, 0.0, 0.0) && ray.Dir == Vec(1.0, 0.0, 0.0)
    requires ray.Tmin == DefaultTmin && ray.Tmax == Infinity
    ensures WellFormed(s)
    ensures var hit := SphereIntersection(s, ray, math);
      hit.Some? && hit.value.T == 1.0 && hit.value.WorldPoint == Point(1.0, 0.0, 0.0)
      && hit.value.Normal == Normals.Normal(-1.0, 0.0, 0.0)
  {
    CentredCoefficients(ray);
    AlongX(ray);
    InsideRoots(s, ray, math);
    InsideAt(ray);
    InsideRecord(s, ray, math);
  }

  lemma MissDiscriminant(ray: Ray)
    requires ray == NewRay(Point(0.0, 10.0, 2.0), Vec(0.0, 0.0, -1.0))
    ensures Discriminant(ray) < 0.0
  {
    CoefficientsOfComponents(ray, 0.0, 10.0, 2.0, 0.0, 0.0, -1.0);
    CoefficientsGiven(ray, 1.0, -4.0, 103.0, 0.0);
  }

  /** A ray passing beside the sphere misses it. */
  lemma SphereMiss(s: Shape, ray: Ray, math: MathLib)
    requires s.Sphere? && s.Transformation == IdentityTransformation()
    requires ray == NewRay(Point(0.0, 10.0, 2.0), Vec(0.0, 0.0, -1.0))
    ensures WellFormed(s) && SphereIntersection(s, ray, math).None?
  {
    MissDiscriminant(ray);
    IdentityMiss(s, ray, math);
  }

  /** Under the identity the plane's record carries the object-space hit point, its normal and fractions. */
  lemma IdentityPlaneRecord(s: Shape, ray: Ray, t: real)
    requires s.Transformation == IdentityTransformation()
    ensures WellFormed(s)
    ensures PlaneRecord(s, ray, t) == HitRecord(At(ray, t), PlaneNormal(ray.Dir),
      Vec2d(Fraction(At(ray, t).X), Fraction(At(ray, t).Y)), t, ray, s)
  {
    IdentityObjectRay(s, ray);
    IdentityActs(At(ray, t), ray.Dir, PlaneNormal(ray.Dir));
  }

  /** A hit of the plane is the plane's record at the hit's t. */
  lemma PlaneHitIsRecord(s: Shape, ray: Ray)
    requires s.Plane? && WellFormed(s)
    ensures PlaneIntersection(s, ray).Some? ==>
      PlaneIntersection(s, ray).value == PlaneRecord(s, ray, PlaneIntersection(s, ray).value.T)
  {
  }

  /**
   * A ray going straight down from height h onto the plane z = 0 hits it at t = h, below
   * its origin, with the normal +z and the fractional parts of x and y as coordinates.
   */
  lemma PlaneHitFromAbove(s: Shape, ray: Ray, x: real, y: real, h: real)
    requires s.Plane? && s.Transformation == IdentityTransformation()
    requires ray.Origin == Point(x, y, h) && ray.Dir == Vec(0.0, 0.0, -1.0)
    requires ray.Tmin < h && Below(h, ray.Tmax)
    ensures WellFormed(s)
    ensures PlaneIntersection(s, ray)
      == Some(HitRecord(Point(x, y, 0.0), Normals.Normal(0.0, 0.0, 1.0), Vec2d(Fraction(x), Fraction(y)), h, ray, s))
  {
    DownwardAt(ray, x, y, h);
    IdentityPlaneCrossing(s, ray, h);
    PlaneHitIsRecord(s, ray);
    IdentityPlaneRecord(s, ray, h);
  }

  lemma IdentityPlaneCrossing(s: Shape, ray: Ray, t: real)
    requires s.Plane? && s.Transformation == IdentityTransformation()
    requires Abs(ray.Dir.Z) >= PlaneEpsilon && InInterval(ray, t) && At(ray, t).Z == 0.0
    ensures WellFormed(s) && PlaneIntersection(s, ray).Some? && PlaneIntersection(s, ray).value.T == t
  {
    IdentityObjectRay(s, ray);
    PlaneOnlyCrossing(s, ray, t);
  }


  lemma DownwardAt(ray: Ray, x: real, y: real, h: real)
    requires ray.Origin == Point(x, y, h) && ray.Dir == Vec(0.0, 0.0, -1.0)
    ensures At(ray, h) == Point(x, y, 0.0)
  {
  }

  /** Under the identity a ray parallel to the plane misses it. */
  lemma PlaneParallelMiss(s: Shape, ray: Ray)
    requires s.Plane? && s.Transformation == IdentityTransformation() && ray.Dir.Z == 0.0
    ensures WellFormed(s) && PlaneIntersection(s, ray).None?
  {
    IdentityObjectRay(s, ray);
  }

  /** Under the identity a ray leaving the plane from above (or from on it) misses it. */
  lemma PlaneUpwardMiss(s: Shape, ray: Ray)
    requires s.Plane? && s.Transformation == IdentityTransformation()
    requires ray.Origin.Z >= 0.0 && ray.Dir.Z > 0.0 && ray.Tmin >= 0.0
    ensures WellFormed(s) && PlaneIntersection(s, ray).None?
  {
    IdentityObjectRay(s, ray);
    PlaneLeaving(s, ray);
  }

  /** In object space, a ray that starts on or above z = 0 and climbs never meets the plane. */
  lemma PlaneLeaving(s: Shape, ray: Ray)
    requires s.Plane? && WellFormed(s)
    requires ObjectRay(s, ray).Origin.Z >= 0.0 && ObjectRay(s, ray).Dir.Z > 0.0 && ray.Tmin >= 0.0
    ensures PlaneIntersection(s, ray).None?
  {
    PlaneHitOnPlane(s, ray);
    var climb := ObjectRay(s, ray).Dir.Z;
    match PlaneIntersection(s, ray)
    case None =>
    case Some(hit) =>
      PositiveProduct(climb, hit.T);
      assert false;
  }

  lemma PositiveProduct(a: real, b: real)
    ensures a > 0.0 && b > 0.0 ==> a * b > 0.0
  {
  }

  /** The coordinates of the plane tests: the fractional parts of 4.25 and 7.75. */
  lemma FractionExample()
    ensures Fraction(4.25) == 0.25 && Fraction(7.75) == 0.75 && Fraction(0.0) == 0.0
  {
    assert (4.25).Floor == 4;
    assert (7.75).Floor == 7;
  }
}
