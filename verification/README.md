# DMF-ImaGenerator in Dafny

A model of the core of DMF-ImaGenerator, a ray tracer written in C#. It covers:

- The geometry: vectors, points, normals, 4 x 4 affine transformations with their stored inverses, and Duff's orthonormal basis.
- Colours, rays, and the orthogonal and perspective cameras.
- The HDR image: a flat, row-major array of colours.
- The uniform, checkered and image pigments, materials and point lights.
- Spheres and planes, and the world's search for the nearest hit.
- The on-off, flat and one-colour renderers.
- The image tracer, which paints every pixel with the colour a renderer gives for the ray through it.
- The PCG random number generator.
- The character stream that the scene-file lexer reads from.

Each source file has its own module. The file's classes keep their fields and their state-changing methods:

- `Images.HdrImage` holds an `array<Color>`.
- `Worlds.World` holds a `seq<Shape>`.
- `ImageTracers.ImageTracer` paints the image in place with a nested loop.
- `RandomNumbers.Pcg` keeps its 64-bit state and increment.
- `InputStreams.InputStream` keeps its location, its saved character and its saved location.

Each method is proved against a function that says what it computes. The properties the source promises are lemmas about those functions.

Arithmetic:

- Floating-point numbers are exact reals.
- The PCG state is an unsigned 64-bit integer whose arithmetic wraps explicitly modulo 2^64. Its output uses 32- and 64-bit bit-vectors.
- The C# integer cast and `%` (both truncating toward zero) are written out where the checkered and image pigments use them.
- `Math.Sqrt`, `Math.Atan2` and `Math.Acos` are uninterpreted functions in a `MathLib` value passed as a parameter. The predicate `Sound` states the facts about them that the proofs use:
  - the square root of a non-negative number is non-negative and squares back;
  - `Atan2` lies in [-pi, pi];
  - `Acos` lies in [0, pi].
- Sines and cosines are passed to the rotations as parameters. Where it matters, `sin² + cos² = 1` is a precondition.

Where the tests and the code disagree, the model follows the code, and the lemmas show what the code does. See "Left out" for each case. The one exception is the conversion of the byte read by `read_char()`, which as written throws on every read: it is listed under "Findings", and the rest of the model uses the evidently intended conversion.

## Model

| member | source | states |
|---|---|---|
| Vectors.Abs | Trace/Geometry/Vec.cs:30 | `Math.Abs` of a difference: never negative, and equal to the value or its negation |
| Vectors.Cross | Trace/Geometry/Vec.cs:78-85 | `vec_prod` gives a vector perpendicular to both operands |
| Vectors.SquaredNorm | Trace/Geometry/Vec.cs:98-101 | `squared_norm` is never negative |
| Vectors.IsCloseReflexive | Trace/Geometry/Vec.cs:28-31 | for any positive tolerance, `is_close` holds between a vector and itself |
| Vectors.AddSubRoundTrip | Trace/Geometry/Vec.cs:33-41 | `-` undoes `+` and `+` undoes `-` |
| Vectors.AddCommutative | Trace/Geometry/Vec.cs:33-36 | `+` does not depend on the order of its operands |
| Vectors.ScaleSidesAgree | Trace/Geometry/Vec.cs:46-57 | `v * alpha` and `alpha * v` give the same vector |
| Vectors.NegProperties | Trace/Geometry/Vec.cs:62-65 | `neg` is an involution, equals scaling by -1, and `v + v.neg()` is the zero vector |
| Vectors.DotProperties | Trace/Geometry/Vec.cs:70-73 | the scalar product is symmetric, and `v * v` is `squared_norm` |
| Vectors.CrossAnticommutative | Trace/Geometry/Vec.cs:78-85 | swapping the operands of `vec_prod` negates it; a vector crossed with itself gives zero |
| Vectors.VecExample | Trace.Tests/GeometryTests.cs:9-34 | the geometry tests' vector values: `is_close` on a and b, neg, sum, difference, scaling, dot product 40, both cross products, squared norm 14 |
| Points.Diff | Trace/Geometry/Point.cs:40-43 | `p - q` is the displacement that carries q to p |
| Points.TranslateBack | Trace/Geometry/Point.cs:48-51 | `p - v` is the point that v carries to p |
| Points.ToVec | Trace/Geometry/Point.cs:72-75 | `to_vec` is the displacement from the origin to the point |
| Points.TranslateRoundTrip | Trace/Geometry/Point.cs:32-51 | `(p + v) - v` is p, and `(p + v) - p` is v |
| Points.ScaleSidesAgree | Trace/Geometry/Point.cs:56-67 | `p * alpha` and `alpha * p` give the same point |
| Points.PointExample | Trace.Tests/GeometryTests.cs:36-56 | the geometry tests' point values: `is_close`, scaling, `p + v`, `p2 - p1`, `p - v` |
| Normals.AsVec | Trace/Geometry/Vec.cs:114-117 | a normal seen as a vector and turned back with `to_normal` is the same normal |
| Normals.CrossVec | Trace/Geometry/Normal.cs:67-74 | `n.vec_prod(v)` is perpendicular to both n and v |
| Normals.CrossNormal | Trace/Geometry/Normal.cs:79-86 | `n.vec_prod(m)` is perpendicular to both normals |
| Normals.SquaredNorm | Trace/Geometry/Normal.cs:99-102 | `squared_norm` is never negative |
| Normals.NegInvolution | Trace/Geometry/Normal.cs:35-38 | `neg` is an involution and equals scaling by -1 |
| Normals.ScaleSidesAgree | Trace/Geometry/Normal.cs:43-54 | both scalar product overloads give the same normal |
| Normals.DotProperties | Trace/Geometry/Normal.cs:59-62 | the scalar product of two normals is symmetric, and `n * n` is `squared_norm` |
| Normals.CrossProductsAgree | Trace/Geometry/Normal.cs:67-86 | both cross products of a normal equal the vector cross product of the same coordinates |
| Normals.CrossNormalAnticommutes | Trace/Geometry/Normal.cs:79-86 | swapping two normals negates their cross product |
| Normals.CrossVecAnticommutes | Trace/Geometry/Normal.cs:67-74 | swapping a normal and a vector negates their cross product |
| Normals.DefaultEpsilonIsFive | Trace/Geometry/Normal.cs:27-30 | the default tolerance `10-5` is 5, so (0, 0, 1) and (0, 0, -1) count as close |
| Colors.Black | Trace/Color.cs:15-20 | the parameterless colour is black |
| Colors.Luminosity | Trace/Color.cs:87-90 | the luminosity lies between the smallest and the largest channel, and is that channel when all three are equal |
| Colors.AddSubRoundTrip | Trace/Color.cs:36-47 | subtracting what was added gives back the first colour |
| Colors.Commutative | Trace/Color.cs:36-53 | sum and componentwise product do not depend on the order of the operands |
| Colors.ScaleSidesAgree | Trace/Color.cs:56-67 | `c * alpha` and `alpha * c` give the same colour |
| Colors.IsCloseProperties | Trace/Color.cs:69-72 | `is_close` holds between a colour and itself for a positive tolerance, is symmetric, and fails as soon as one channel differs by the tolerance or more |
| Colors.ColorExample | Trace.Tests/ColorTests.cs:11-45 | the colour tests' values: `is_close`, sum, difference, product, both scalings; and a luminosity |
| OrthonormalBasis.Sign | Trace/Onb.cs:27 | `CopySign(1, z)` is +1 or -1, with the sign of z, so `sign + z` is never zero |
| OrthonormalBasis.FromZ | Trace/Onb.cs:25-35 | the third vector of the basis is the input itself |
| OrthonormalBasis.FromZOrthonormal | Trace/Onb.cs:22-35 | for a unit input the three vectors are unit vectors and pairwise perpendicular |
| OrthonormalBasis.Onb.constructor | Trace/Onb.cs:17-20 | a new basis holds the three vectors built from the input |
| OrthonormalBasis.Onb.CreateOnbFromZ | Trace/Onb.cs:25-35 | the fields become the three vectors of `FromZ(v)` |
| Vectors.IsClose | Trace/Geometry/Vec.cs:28-31 | `is_close`: every component differs by less than the tolerance; `Vectors.IsCloseReflexive` shows it holds between a vector and itself |
| Vectors.Add | Trace/Geometry/Vec.cs:33-36 | the componentwise sum; `Vectors.AddSubRoundTrip` and `Vectors.AddCommutative` relate it to `-` and to its swapped form |
| Vectors.Sub | Trace/Geometry/Vec.cs:38-41 | the componentwise difference, which `Vectors.AddSubRoundTrip` shows undoes `+` |
| Vectors.Scale | Trace/Geometry/Vec.cs:46-49 | `v * alpha` scales every component; `Vectors.ScaleSidesAgree` equates it with `alpha * v` |
| Vectors.ScaleLeft | Trace/Geometry/Vec.cs:54-57 | `alpha * v`, the same vector as `v * alpha` (`Vectors.ScaleSidesAgree`) |
| Vectors.Neg | Trace/Geometry/Vec.cs:62-65 | `neg` flips every component; `Vectors.NegProperties` shows it is an involution and the additive inverse |
| Vectors.Dot | Trace/Geometry/Vec.cs:70-73 | the scalar product, symmetric and equal to `squared_norm` on a vector with itself (`Vectors.DotProperties`) |
| Points.IsClose | Trace/Geometry/Point.cs:27-30 | `is_close` on points; its properties are `Points.IsCloseProperties` |
| Points.IsCloseProperties | Trace/Geometry/Point.cs:27-30 | `is_close` is reflexive for a positive tolerance and symmetric, and fails as soon as one coordinate differs by the tolerance or more |
| Points.Translate | Trace/Geometry/Point.cs:32-35 | `p + v` moves every coordinate; `Points.TranslateRoundTrip` shows `- v` and `- p` undo it |
| Points.Scale | Trace/Geometry/Point.cs:56-59 | `p * alpha` scales every coordinate; `Points.ScaleSidesAgree` equates it with `alpha * p` |
| Points.ScaleLeft | Trace/Geometry/Point.cs:64-67 | `alpha * p`, the same point as `p * alpha` (`Points.ScaleSidesAgree`) |
| Normals.IsClose | Trace/Geometry/Normal.cs:27-30 | `is_close` on normals, with the default tolerance 10 - 5 as written (`Normals.DefaultEpsilonIsFive`); its properties are `Normals.IsCloseProperties` |
| Normals.IsCloseProperties | Trace/Geometry/Normal.cs:27-30 | `is_close` is reflexive for a positive tolerance and symmetric, and fails as soon as one component differs by the tolerance or more |
| Normals.FromVec | Trace/Geometry/Vec.cs:114-117 | `to_normal` keeps the components; `Normals.AsVec` is its inverse |
| Normals.Neg | Trace/Geometry/Normal.cs:35-38 | `neg` flips every component, an involution (`Normals.NegInvolution`) |
| Normals.ScaleLeft | Trace/Geometry/Normal.cs:43-46 | `a * n` scales every component, the same normal as `n * a` (`Normals.ScaleSidesAgree`) |
| Normals.Scale | Trace/Geometry/Normal.cs:51-54 | `n * a`, the same normal as `a * n` (`Normals.ScaleSidesAgree`) |
| Normals.Dot | Trace/Geometry/Normal.cs:59-62 | the scalar product of two normals, symmetric and equal to `squared_norm` on a normal with itself (`Normals.DotProperties`) |
| Colors.Add | Trace/Color.cs:36-40 | the channelwise sum; `Colors.AddSubRoundTrip` and `Colors.Commutative` relate it to `-` and to its swapped form |
| Colors.Sub | Trace/Color.cs:42-47 | the channelwise difference, which `Colors.AddSubRoundTrip` shows undoes `+` |
| Colors.Mul | Trace/Color.cs:49-53 | the channelwise product, commutative (`Colors.Commutative`) |
| Colors.Scale | Trace/Color.cs:56-60 | `a * alpha` scales every channel; `Colors.ScaleSidesAgree` equates it with `alpha * a` |
| Colors.ScaleLeft | Trace/Color.cs:63-67 | `alpha * a`, the same colour as `a * alpha` (`Colors.ScaleSidesAgree`) |
| Colors.IsClose | Trace/Color.cs:69-72 | `is_close` on colours; its properties are `Colors.IsCloseProperties` |
| Transformations.IdentityTransformation | Trace/Geometry/Transformation.cs:25-29 | the parameterless transformation holds the identity matrix in both places |
| Transformations.IsCloseProperties | Trace/Geometry/Transformation.cs:57-80 | `is_close` holds between a transformation and itself for any non-negative tolerance, is symmetric, and fails once any of the sixteen entries of `M` or of `InvM` differs by more than the tolerance |
| Transformations.Translation | Trace/Geometry/Transformation.cs:96-111 | both matrices of a translation are affine (last row 0, 0, 0, 1) |
| Transformations.Scaling | Trace/Geometry/Transformation.cs:117-132 | both matrices of a scaling are affine |
| Transformations.RotationX | Trace/Geometry/Transformation.cs:139-157 | both matrices of a rotation about x are affine |
| Transformations.RotationY | Trace/Geometry/Transformation.cs:164-182 | both matrices of a rotation about y are affine |
| Transformations.RotationZ | Trace/Geometry/Transformation.cs:189-207 | both matrices of a rotation about z are affine |
| Transformations.Inverse | Trace/Geometry/Transformation.cs:212-215 | the inverse of a transformation whose two matrices invert each other is again one |
| Transformations.Compose | Trace/Geometry/Transformation.cs:217-234 | the product of two affine transformations is affine |
| Transformations.TransformPoint | Trace/Geometry/Transformation.cs:239-252 | for an affine matrix no division happens: the point is the matrix times (x, y, z, 1) |
| Transformations.TransformVec | Trace/Geometry/Transformation.cs:257-266 | a vector is the matrix times (x, y, z, 0): the translation column takes no part |
| Transformations.TransformNormal | Trace/Geometry/Transformation.cs:271-280 | a normal is (x, y, z, 0) times the stored inverse, that is the inverse transposed |
| Transformations.MultiplyAssociative | Trace/Geometry/Transformation.cs:224-225 | the matrix product used by `*` is associative |
| Transformations.MultiplyIdentity | Trace/Geometry/Transformation.cs:25-29 | the identity matrix is neutral on both sides of the product |
| Transformations.InverseInvolutive | Trace/Geometry/Transformation.cs:212-215 | inverting twice gives back the transformation |
| Transformations.ComposeInverse | Trace/Geometry/Transformation.cs:212-234 | the inverse of `ta * tb` is `tb.inverse() * ta.inverse()` |
| Transformations.ComposeAssociative | Trace/Geometry/Transformation.cs:217-234 | composition is associative, for both matrices |
| Transformations.ComposeIdentity | Trace/Geometry/Transformation.cs:217-234 | the identity transformation is neutral for `*` on both sides |
| Transformations.ComposeConsistent | Trace/Geometry/Transformation.cs:86-90 | the product of two consistent transformations is consistent |
| Transformations.ComposeInvertible | Trace/Geometry/Transformation.cs:217-234 | the product of two transformations whose matrices invert each other on both sides is again one |
| Transformations.InverseConsistent | Trace/Geometry/Transformation.cs:212-215 | for a transformation whose matrices are inverse on both sides, `inverse()` is again two-sided and passes `is_consistent` for any non-negative tolerance; the two-sidedness is a premise, not derived from `M` times `InvM` being the identity |
| Transformations.ExactlyConsistentIsConsistent | Trace/Geometry/Transformation.cs:86-90 | an exact inverse passes `is_consistent` for every tolerance |
| Transformations.IdentityInvertible | Trace/Geometry/Transformation.cs:25-29 | the identity transformation is its own inverse |
| Transformations.TranslationInvertible | Trace/Geometry/Transformation.cs:96-111 | the two matrices of a translation invert each other |
| Transformations.TranslationCompose | Trace/Geometry/Transformation.cs:96-111 | two translations compose into the translation by the sum of the vectors |
| Transformations.ScalingInvertible | Trace/Geometry/Transformation.cs:117-132 | with no zero factor, the two matrices of a scaling invert each other |
| Transformations.ScalingCompose | Trace/Geometry/Transformation.cs:117-132 | two scalings compose into the scaling by the componentwise product |
| Transformations.RotationsInvertible | Trace/Geometry/Transformation.cs:139-207 | when sine² + cosine² = 1 the two matrices of each rotation invert each other |
| Transformations.AffinePointW | Trace/Geometry/Transformation.cs:247-251 | an affine matrix gives w = 1, so the division branch is never taken |
| Transformations.IdentityActs | Trace/Geometry/Transformation.cs:239-280 | the identity transformation leaves points, vectors and normals unchanged |
| Transformations.IdentityMatrixActs | Trace/Geometry/Transformation.cs:239-266 | points and vectors see only `M`: an identity `M` leaves them unchanged whatever `InvM` holds |
| Transformations.TranslationActs | Trace/Geometry/Transformation.cs:96-111 | a translation moves a point by its vector and leaves vectors unchanged |
| Transformations.RotationZActs | Trace/Geometry/Transformation.cs:189-207 | a rotation about z turns the x and y components and keeps z |
| Transformations.QuarterTurns | Trace.Tests/TransformationTests.cs:168-182 | quarter turns about x, y and z carry y to z, z to x and x to y |
| Transformations.TransformPointCompose | Trace/Geometry/Transformation.cs:217-252 | applying `ta * tb` to a point is applying `tb` and then `ta` |
| Transformations.TransformVecCompose | Trace/Geometry/Transformation.cs:257-266 | applying `ta * tb` to a vector is applying `tb` and then `ta` |
| Transformations.TransformNormalPreservesDot | Trace/Geometry/Transformation.cs:271-280 | when `InvM * M` is the identity, a transformed normal has the same scalar product with a transformed vector as before: perpendicular normals stay perpendicular |
| Transformations.VecPointNormalExample | Trace.Tests/TransformationTests.cs:97-122 | the test's transformation is consistent and maps the test's vector, point and normal to the expected values |
| Transformations.CompositionExample | Trace.Tests/TransformationTests.cs:43-94 | the two test transformations are consistent and their product has exactly the expected matrices |
| Transformations.Multiply | Trace/Geometry/Transformation.cs:224-225 | `Matrix4x4.Multiply`, the matrix product; `Transformations.MultiplyAssociative` and `Transformations.MultiplyIdentity` show it associative with the identity as unit |
| Transformations.IsClose | Trace/Geometry/Transformation.cs:77-80 | `is_close`: both matrices entry by entry within the tolerance; `Transformations.IsCloseProperties` gives reflexivity, symmetry and a failing entry |
| Transformations.IsConsistent | Trace/Geometry/Transformation.cs:86-90 | `is_consistent`: `M` times `InvM` is close to the identity; `Transformations.ExactlyConsistentIsConsistent` shows every exactly inverse pair passes it, and the constructors and `*` keep exact inverses |
| Rays.NewRay | Trace/Cameras/Ray.cs:44-49 | the short constructor keeps origin, direction and `Tmin`, and leaves `Tmax` infinite and `Depth` 0 |
| Rays.At | Trace/Cameras/Ray.cs:54-57 | the point at t is the origin moved by t times the direction |
| Rays.Transform | Trace/Cameras/Ray.cs:70-73 | transforming a ray keeps `Tmin`, `Tmax` and `Depth` |
| Rays.TransformIdentity | Trace/Cameras/Ray.cs:70-73 | a transformation whose matrix is the identity leaves the ray unchanged |
| Rays.TransformByTranslation | Trace/Cameras/Ray.cs:70-73 | a translation moves the origin and keeps direction and interval |
| Rays.TransformByRotationZ | Trace/Cameras/Ray.cs:70-73 | a rotation about z turns origin and direction about the z axis |
| Rays.AtZero | Trace/Cameras/Ray.cs:54-57 | at t = 0 the ray is at its origin |
| Rays.IsCloseIgnoresInterval | Trace/Cameras/Ray.cs:62-65 | `is_close` compares origin and direction only: rays differing in interval or depth are close |
| Rays.TransformCompose | Trace/Cameras/Ray.cs:70-73 | transforming by `a` and then by `b` is transforming by `b * a` |
| Rays.TransformAt | Trace/Cameras/Ray.cs:54-73 | under an affine transformation, the transformed ray at t is the transformed point of the ray at t |
| Rays.RayExample | Trace.Tests/RayTests.cs:23-42 | the ray tests: points at t = 1 and t = 2, and a quarter turn about x followed by a translation |
| Rays.IsCloseExample | Trace.Tests/RayTests.cs:12-20 | a ray is close to an equal ray and not to one with another origin and direction |
| Cameras.NewOrthogonal | Trace/Cameras/Camera.cs:36-39 | the aspect ratio defaults to 1 |
| Cameras.NewPerspective | Trace/Cameras/Camera.cs:78-82 | the distance defaults to 1 |
| Cameras.FireRay | Trace/Cameras/Camera.cs:45-98 | a fired ray is the camera-space ray moved by the camera's transformation, with infinite `Tmax`, depth 0, and `Tmin` 1e-5 (orthogonal) or 1 (perspective) |
| Cameras.OrthogonalRaysParallel | Trace/Cameras/Camera.cs:45-50 | all rays of an orthogonal camera share one direction, so their cross product is zero |
| Cameras.PerspectiveCommonOrigin | Trace/Cameras/Camera.cs:93-98 | all rays of a perspective camera leave from the same point |
| Cameras.FireRayAt | Trace/Cameras/Camera.cs:45-98 | under an affine transformation, each point of a fired ray is the transformed point of the camera-space ray |
| Cameras.FireRayIdentity | Trace/Cameras/Camera.cs:45-98 | without a transformation the fired ray is the camera-space ray |
| Cameras.ScreenPointAtOne | Trace/Cameras/Camera.cs:45-98 | both cameras reach the screen point (0, (1 - 2u) * aspect ratio, 2v - 1) at t = 1 |
| Cameras.UntransformedScreenPoint | Trace.Tests/CameraTests.cs:10-65 | an untransformed camera hits the screen corners (0, +-aspect ratio, +-1) of the corner tests |
| Cameras.FireRayComposed | Trace/Cameras/Camera.cs:45-98 | a camera moved by `a * b` fires the camera-space ray moved by `b`, then by `a` |
| Cameras.ComposedCentre | Trace/Cameras/Camera.cs:45-50 | an orthogonal camera moved by `a * b` sends its central ray, at t = 1, to the origin moved by `b` and then `a` |
| Cameras.OrthogonalTransformExample | Trace.Tests/CameraTests.cs:32-43 | the moved orthogonal camera of the test hits (0, -2, 0) through the screen's centre |
| Rays.IsClose | Trace/Cameras/Ray.cs:62-65 | `is_close` compares origins and directions only; `Rays.IsCloseIgnoresInterval` shows the interval and depth do not matter |
| Cameras.DefaultPerspective | Trace/Cameras/Camera.cs:84-87 | the one-argument perspective camera: distance 1, aspect ratio 1, the given transformation |
| Cameras.CameraSpaceRay | Trace/Cameras/Camera.cs:45-98 | the ray each camera fires before its transformation; `Cameras.ScreenPointAtOne` shows it reaches the screen point at t = 1 and `Cameras.FireRayAt` that `fire_ray` is its transform |
| Images.OffsetInRange | Trace/HdrImage.cs:25-33 | the offset of every valid pixel is an index inside the width x height array |
| Images.OffsetInjective | Trace/HdrImage.cs:30-33 | distinct valid pixels have distinct offsets |
| Images.OffsetRoundTrip | Trace/HdrImage.cs:30-33 | every index of the array is the offset of the valid pixel (index mod width, index div width) |
| Images.ValidCoordinatesExample | Trace.Tests/HdrImageTests.cs:18-28 | on a 7 x 4 image the corners are valid and the coordinates just outside each side are not |
| Images.OffsetExample | Trace.Tests/HdrImageTests.cs:31-38 | on a 7 x 4 image the offsets of (0, 0), (3, 2) and (6, 3) are 0, 17 and 27 |
| Images.HdrImage.constructor | Trace/HdrImage.cs:13-23 | for sizes whose product is not negative (the source throws otherwise), a new image has the given size, one colour per pixel, and every pixel black |
| Images.HdrImage.GetPixel | Trace/HdrImage.cs:35-39 | reading a valid pixel returns the colour stored for it |
| Images.HdrImage.SetPixel | Trace/HdrImage.cs:41-45 | writing a valid pixel changes that pixel and no other |
| Images.PixelAccessExample | Trace.Tests/HdrImageTests.cs:41-48 | on a new 7 x 4 image, the colour written at (3, 2) is read back there |
| Images.ValidCoordinates | Trace/HdrImage.cs:25-28 | `valid_coordinates`: column in [0, width) and row in [0, height) |
| Images.PixelOffset | Trace/HdrImage.cs:30-33 | `pixel_offset`, row-major; `Images.OffsetInRange`, `Images.OffsetInjective` and `Images.OffsetRoundTrip` show it maps valid pixels one to one into the array |
| Pigments.NewCheckered | Trace/Pigment.cs:80-85 | a checkered pigment keeps both colours and has ten squares along each direction unless told otherwise |
| Pigments.Truncate | Trace/Pigment.cs:52-53 | the C# cast to `int` rounds toward zero: below x for positive x, above it for negative x, less than 1 away |
| Pigments.Remainder | Trace/Pigment.cs:92 | the C# `%` takes the sign of the dividend: the usual remainder for non-negative numbers, between -m and 0 for negative ones |
| Pigments.RemainderTwo | Trace/Pigment.cs:92 | modulo 2 the remainder is 0 for even numbers, 1 for odd positive ones and -1 for odd negative ones |
| Pigments.GetColor | Trace/Pigment.cs:32-93 | only the image pigment can fail, and it fails exactly when the clamped column and row are not a valid pixel |
| Pigments.UniformEverywhere | Trace/Pigment.cs:32-35 | a uniform pigment answers its colour at every (u, v) |
| Pigments.CheckeredTwoColors | Trace/Pigment.cs:87-93 | a checkered pigment always answers one of its two colours |
| Pigments.CheckeredIsCheckerboard | Trace/Pigment.cs:87-93 | for u, v >= 0 the pattern is the checkerboard: square (i, j) has the first colour exactly when i + j is even |
| Pigments.CheckeredNegativeSquare | Trace/Pigment.cs:89-92 | for negative u the C# remainder breaks the checkerboard: square (-1, 1) gets the second colour where the checkerboard has the first |
| Pigments.CheckeredExample | Trace.Tests/PigmentsTests.cs:37-62 | the 2 x 2 checkerboard of the tests gives the expected colour in each quarter |
| Pigments.ImageUnitSquare | Trace/Pigment.cs:50-67 | on a non-empty texture every (u, v) of the unit square, edges included, reads a valid pixel |
| Pigments.ImageExample | Trace.Tests/PigmentsTests.cs:21-34 | the corners of the unit square read the four pixels of a 2 x 2 texture |
| Pigments.TextureColumn | Trace/Pigment.cs:52-58 | the column read for u: the truncated product with the width, clamped below the width; `Pigments.ImageUnitSquare` shows it valid for u in [0, 1] |
| Pigments.TextureRow | Trace/Pigment.cs:53-63 | the row read for v: the truncated product with the height, clamped below the height; `Pigments.ImageUnitSquare` shows it valid for v in [0, 1] |
| Pigments.CheckeredColor | Trace/Pigment.cs:87-93 | the first colour when the floors of u n and v n have equal C# remainders modulo 2; `Pigments.CheckeredIsCheckerboard` equates it with the checkerboard for non-negative u and v |
| Shapes.NewSphere | Trace/Shape.cs:47-57 | a sphere has the identity transformation and the default material unless given others |
| Shapes.NewPlane | Trace/Shape.cs:148-163 | a plane has the identity transformation and the default material unless given others |
| Shapes.ObjectRay | Trace/Shape.cs:66 | the ray in the shape's frame is the world ray under the inverse transformation; mapping its origin needs no division |
| Shapes.PositiveDiscriminant | Trace/Shape.cs:72-77 | a positive discriminant forces a > 0, so the roots never divide by zero |
| Shapes.SphereNormal | Trace/Shape.cs:103-108 | the normal is the hit point or its negation, and never points along the ray's direction |
| Shapes.SphereUvInUnitSquare | Trace/Shape.cs:113-119 | given atan2 in [-pi, pi] and acos in [0, pi], u lies in [0, 1) and v in [0, 1] |
| Shapes.SphereRecord | Trace/Shape.cs:87-95 | the record of a sphere hit carries the t, the world ray and the shape |
| Shapes.SphereIntersection | Trace/Shape.cs:64-96 | a hit keeps the ray and the shape, its t lies strictly inside the ray's interval, and a discriminant that is not positive is a miss |
| Shapes.DoubledOrigin | Trace/Shape.cs:124-140 | the quick test's b, (2 o) . d, equals the full test's 2 (o . d) |
| Shapes.SphereEquation | Trace/Shape.cs:66-72 | along the object-space ray, the squared distance from the centre minus 1 is the quadratic with the computed a, b, c |
| Shapes.RootSolves | Trace/Shape.cs:75-77 | both roots (-b -+ sqrt(delta)) / 2a solve the quadratic |
| Shapes.RootsOnly | Trace/Shape.cs:75-77 | every solution of the quadratic is one of the two roots |
| Shapes.RootsOrdered | Trace/Shape.cs:76-77 | with a > 0 the root tried first is the smaller one |
| Shapes.SphereHitOnSurface | Trace/Shape.cs:64-96 | given a true square root, every sphere hit lies on the unit sphere of the shape's frame |
| Shapes.SphereFirstCrossing | Trace/Shape.cs:64-96 | when the ray crosses the sphere inside its interval and the discriminant is positive, there is a hit, no later than that crossing |
| Shapes.Fraction | Trace/Shape.cs:187 | `x - floor(x)` lies in [0, 1) and differs from x by an integer |
| Shapes.PlaneNormal | Trace/Shape.cs:180-181 | the plane's normal is +z or -z, and points against any ray that is not parallel to the plane |
| Shapes.PlaneRecord | Trace/Shape.cs:184-191 | the record of a plane hit carries the t, the world ray and the shape, with surface coordinates in [0, 1) x [0, 1) |
| Shapes.PlaneIntersection | Trace/Shape.cs:169-192 | a hit keeps the ray and the shape, its t lies strictly inside the ray's interval, and a ray with \|dir.z\| < 1e-5 is a miss |
| Shapes.RayIntersection | Trace/Shape.cs:64-192 | whatever the shape, a hit keeps the ray and the shape and its t lies strictly inside the ray's interval |
| Shapes.PlaneHitOnPlane | Trace/Shape.cs:169-192 | every plane hit lies on z = 0 in the shape's frame |
| Shapes.PlaneOnlyCrossing | Trace/Shape.cs:173-177 | a ray that is not nearly parallel and reaches z = 0 inside its interval is hit exactly there |
| Shapes.QuickAgrees | Trace/Shape.cs:124-204 | `quick_ray_intersection` answers whether `ray_intersection` finds a hit |
| Shapes.ObjectRayRoundTrip | Trace/Shape.cs:66-89 | for a consistent transformation, mapping the object-space ray back gives the world ray |
| Shapes.HitOnWorldRay | Trace/Shape.cs:87-191 | the world point of a hit is where the world ray is at the hit's t |
| Shapes.NormalFacesRay | Trace/Shape.cs:90-186 | for an invertible transformation, the world normal of a hit never points along the ray |
| Shapes.SphereHitFromAbove | Trace.Tests/SphereTests.cs:14-25 | a ray from (0, 0, 2) going down hits the unit sphere at t = 1 at (0, 0, 1) with normal (0, 0, 1) |
| Shapes.SphereMiss | Trace.Tests/SphereTests.cs:37 | a ray from (0, 10, 2) going down misses the unit sphere |
| Shapes.SphereHitFromInside | Trace.Tests/SphereTests.cs:42-54 | a ray from the centre along x leaves at t = 1 through (1, 0, 0) with the normal turned inward |
| Shapes.PlaneHitFromAbove | Trace.Tests/PlaneTests.cs:14-26 | a ray going straight down from height h hits the plane at t = h, below its origin, with normal +z and the fractional parts of x and y as coordinates |
| Shapes.PlaneUpwardMiss | Trace.Tests/PlaneTests.cs:28-30 | a ray leaving the plane upwards misses it |
| Shapes.PlaneParallelMiss | Trace.Tests/PlaneTests.cs:32-38 | a ray parallel to the plane misses it |
| Shapes.PlaneLeaving | Trace/Shape.cs:175-177 | in the shape's frame a ray starting on or above z = 0 and climbing never hits the plane |
| Shapes.FractionExample | Trace.Tests/PlaneTests.cs:72-87 | the surface coordinates of the plane tests: the fractional parts of 4.25 and 7.75 are 0.25 and 0.75 |
| Shapes.SpherePointToUv | Trace/Shape.cs:113-119 | `sphere_point_to_uv`: longitude over 2 pi moved into [0, 1), colatitude over pi; `Shapes.SphereUvInUnitSquare` bounds both |
| Shapes.SphereQuickIntersection | Trace/Shape.cs:124-140 | `Sphere.quick_ray_intersection`; `Shapes.QuickAgrees` shows it true exactly when the full intersection finds a hit |
| Shapes.PlaneQuickIntersection | Trace/Shape.cs:197-204 | `Plane.quick_ray_intersection`; `Shapes.QuickAgrees` shows it true exactly when the full intersection finds a hit |
| Shapes.QuickRayIntersection | Trace/Shape.cs:42 | dispatch of `quick_ray_intersection` on the shape's kind; its agreement with `ray_intersection` is `Shapes.QuickAgrees` |
| Worlds.Pick | Trace/World.cs:30-39 | one step of the search keeps the closest hit so far or takes the new one, and finds nothing only when neither exists |
| Worlds.Hits | Trace/World.cs:28-30 | the hits asked of the shapes, one per shape, in list order |
| Worlds.World.constructor | Trace/World.cs:10 | a new world holds no shape |
| Worlds.World.Add | Trace/World.cs:15-18 | `add` appends the shape after those already there |
| Worlds.World.RayIntersection | Trace/World.cs:24-43 | the loop returns the result of the search over the shapes' hits |
| Worlds.ClosestNoneIff | Trace/World.cs:24-43 | the world finds no hit exactly when no shape is hit |
| Worlds.ClosestIsFirstMinimum | Trace/World.cs:36-39 | a hit found is some shape's hit with the smallest t; every earlier shape missed or hit strictly farther, so a tie goes to the first shape |
| Worlds.HitsAppend | Trace/World.cs:15-39 | adding a shape adds one step to the search over the old shapes |
| Materials.White | Trace/Brdf.cs:13-16 | the default BRDF pigment is white |
| Materials.NewDiffuse | Trace/Brdf.cs:37-38 | a diffuse BRDF keeps the pigment it is given |
| Materials.NewSpecular | Trace/Brdf.cs:70-75 | a specular BRDF keeps the pigment and the threshold angle it is given |
| Materials.NewMaterial | Trace/Material.cs:5-21 | a material keeps the BRDF and the emitted pigment it is given |
| Materials.DefaultMaterial | Trace/Material.cs:5-9 | the default material reflects uniform white and emits uniform black |
| Lights.NewPointLight | Trace/PointLight.cs:20-32 | a point light keeps its position and colour, and its linear radius defaults to 0 |
| Scenes.Scene.constructor | Trace/Scene.cs:8-17 | a new scene has no camera, no float variable, no material, no overridden variable and an empty world of its own |
| Worlds.Closest | Trace/World.cs:24-43 | the search for the nearest hit over the shapes in list order; `Worlds.ClosestNoneIff` and `Worlds.ClosestIsFirstMinimum` state what it finds |
| Renderers.NewOneColor | Trace/Renderer.cs:37-39 | a `OneColor` renderer keeps its world and has a black background |
| Renderers.NewOnOff | Trace/Renderer.cs:50-54 | an on-off renderer keeps its world, paints the background black and objects white |
| Renderers.NewFlat | Trace/Renderer.cs:68-71 | a flat renderer keeps its world and has a black background |
| Renderers.FlatColor | Trace/Renderer.cs:82-84 | the flat colour of a hit exists exactly when both of its material's pigments can be read at the hit's surface point |
| Renderers.Shade | Trace/Renderer.cs:28-86 | the answer fails with `NotImplementedException` exactly for the base renderer; every concrete renderer answers without that error |
| Renderers.Render | Trace/Renderer.cs:28-86 | `Render(ray)` on the renderer's current world throws `NotImplementedException` exactly when the renderer is the abstract base |
| Renderers.OneColorConstant | Trace/Renderer.cs:40-43 | `OneColor` answers (1, 2, 3) for every ray and every world |
| Renderers.OnOffSeesAnyShape | Trace/Renderer.cs:56-59 | the on-off renderer answers its object colour exactly when some shape of the world is hit, and its background exactly when no shape is |
| Renderers.FlatMiss | Trace/Renderer.cs:75-80 | on a miss the flat renderer answers its background colour |
| Renderers.FlatHit | Trace/Renderer.cs:82-84 | on a hit the flat renderer answers the reflected plus the emitted pigment of the nearest shape's material at the hit's surface point, and fails only when one of those lookups fails |
| Renderers.FlatDefaultMaterial | Trace/Renderer.cs:82-84 | a shape with the default material is rendered white wherever it is hit |
| Renderers.FlatUniform | Trace.Tests/RendererTests.cs:41-68 | a shape with a uniform diffuse pigment and the default emission is rendered in exactly that colour, as the flat test expects of its sphere |
| ImageTracers.PrecedesIsOffsetOrder | Trace/Cameras/ImageTracer.cs:34-42 | the row-by-row, column-by-column visiting order is exactly the order of the pixels' offsets in the image's flat array |
| ImageTracers.ImageTracer.constructor | Trace/Cameras/ImageTracer.cs:12-16 | a tracer keeps the image and the camera it is given |
| ImageTracers.ImageTracer.FireRay | Trace/Cameras/ImageTracer.cs:21-27 | the ray for a pixel is the camera's ray through u = (col + uPixel) / (width - 1), v = (row + vPixel) / (height - 1), and the camera can always fire it |
| ImageTracers.ImageTracer.FireAllRays | Trace/Cameras/ImageTracer.cs:32-43 | for any image with no pixel or at least two columns and rows: it succeeds exactly when the renderer answers for every pixel, and then every pixel holds the colour rendered for its ray; when the renderer throws, the error comes from the first failing pixel in visiting order, the pixels before it are painted and all others are unchanged |
| ImageTracers.SubPixelMapping | Trace.Tests/ImageTracerTests.cs:21-26 | the ray through pixel (0, 0) at offsets (2.5, 1.5) is the ray through the centre of pixel (2, 1), for every image and camera |
| ImageTracers.CornerScreenCoordinates | Trace/Cameras/ImageTracer.cs:24-25 | on a 4 x 2 image the first pixel's corner maps to (0, 0) and the last pixel's far corner to (4/3, 2), beyond the screen's edges |
| ImageTracers.ScreenOrigin | Trace.Tests/ImageTracerTests.cs:39-46 | with an untransformed camera the first pixel's corner is reached at (0, aspect ratio, -1), the bottom-left of the screen |
| ImageTracers.ScreenHeight | Trace.Tests/ImageTracerTests.cs:39-46 | with an untransformed camera the ray for (u, v) crosses the screen at height 2v - 1, so rows with a larger index lie higher |
| ImageTracers.ImageCoverage | Trace.Tests/ImageTracerTests.cs:29-36 | tracing a 4 x 2 image with the `OneColor` renderer leaves every pixel (1, 2, 3) |
| ImageTracers.EmptyImageTrace | Trace/Cameras/ImageTracer.cs:32-43 | an image with no column or no row is traced without firing a ray, and tracing succeeds whatever the renderer |
| RandomNumbers.Increment | Trace/Pcg.cs:14 | the increment derived from any sequence number is odd, as the linear congruential step needs |
| RandomNumbers.Rotation | Trace/Pcg.cs:32 | the rotation taken from the state's top bits is always below 32 |
| RandomNumbers.Complement | Trace/Pcg.cs:34 | the left shift completes the rotation to a multiple of 32, is below 32, and is 0 when the rotation is |
| RandomNumbers.SeededSteps | Trace/Pcg.cs:11-19 | a step from state 0, the seed added modulo 2^64 and one more step reach the seeded state |
| RandomNumbers.Pcg.constructor | Trace/Pcg.cs:11-19 | a new generator's increment is derived from the sequence number and its state is the seeded state |
| RandomNumbers.Pcg.Random | Trace/Pcg.cs:24-35 | `random()` returns the XSH-RR output of the old state, advances the state by one 64-bit wrapping step and keeps the increment |
| RandomNumbers.Pcg.RandomFloat | Trace/Pcg.cs:41-44 | `random_float()` returns the next output divided by 2^32 - 1 and advances the state as `random()` does |
| RandomNumbers.Fraction | Trace/Pcg.cs:37-44 | the fraction lies between 0 and 1 and is 0 exactly for output 0; it is 1 exactly for output 2^32 - 1, so 1 is reachable although the documentation promises [0, 1) |
| RandomNumbers.OutputWithoutRotation | Trace/Pcg.cs:31-34 | with a rotation of zero the output is the xorshifted word itself |
| RandomNumbers.DefaultSeed | Trace.Tests/PcgTests.cs:10-13 | the default generator has increment 109 and state 1753877967969059832 |
| RandomNumbers.DefaultAdvances | Trace/Pcg.cs:28 | the states the default generator passes through in its first six draws |
| RandomNumbers.DrawKnown | Trace/Pcg.cs:24-35 | a draw from a state whose output is known returns that output and advances the state |
| RandomNumbers.DefaultSequence | Trace.Tests/PcgTests.cs:10-26 | the first six draws of a default generator are 2707161783, 2068313097, 3122475824, 2211639955, 3215226955 and 3421331566 |
| RandomNumbers.SameSeedsSameDraw | Trace/Pcg.cs:11-35 | two generators built from the same seeds draw the same number, the output of the seeded state |
| RandomNumbers.Advance | Trace/Pcg.cs:28 | one step of the 64-bit state, modulo 2^64; `RandomNumbers.DefaultAdvances` pins the default generator's steps |
| RandomNumbers.XorShifted | Trace/Pcg.cs:31 | the xorshifted 32-bit word of a state; `RandomNumbers.OutputWithoutRotation` shows it is the output when the rotation is 0 |
| RandomNumbers.Output | Trace/Pcg.cs:31-34 | the word `random()` returns for a state; `RandomNumbers.Pcg.Random` returns it and `RandomNumbers.DefaultSequence` pins the default sequence |
| RandomNumbers.Seeded | Trace/Pcg.cs:11-19 | the state after the constructor's two discarded draws; `RandomNumbers.SeededSteps` and `RandomNumbers.SameSeedsSameDraw` tie it to the constructor |
| InputStreams.Count | Trace/InputStream.cs:48-51 | the number of newlines (or of any character) read is at most the number of characters read |
| InputStreams.CommentLength | Trace/InputStream.cs:115-119 | a comment runs from its `#` to the first carriage return after it, included; a newline does not end it |
| InputStreams.Skipped | Trace/InputStream.cs:110-132 | the skip consumes a prefix of the pending characters, and the character after it, if any, is neither a blank nor a `#` |
| InputStreams.InputStream.Restore | Trace/InputStream.cs:17-25 | the full constructor sets every field to the value given, with the stream at its start |
| InputStreams.InputStream.constructor | Trace/InputStream.cs:27-36 | a new stream has all of its input pending, starts at line 1, column 1 with that location also saved, holds no saved character or token and counts a tab as 8 columns |
| InputStreams.InputStream.UpdatePos | Trace/InputStream.cs:41-62 | reading a character moves the location as `Moved` says: a newline to the next line at column 2, a tab by the tabulation width, anything else by one column; a null changes nothing, and no other field changes |
| InputStreams.InputStream.ReadChar | Trace/InputStream.cs:67-91 | `read_char()` with the byte converted as evidently intended: the saved character is returned first, else the next character of the input, else null at the end; a character read leaves what is pending, the location before it is saved and the location moves past it; at the end nothing changes |
| InputStreams.InputStream.UnreadChar | Trace/InputStream.cs:96-105 | with a character already saved it fails with `InputStreamError` and changes nothing; otherwise the character becomes the first pending one and the location goes back to the saved one |
| InputStreams.InputStream.ReadThenUnread | Trace/InputStream.cs:67-105 | reading a character and pushing it back leaves what is pending and the location as they were |
| InputStreams.InputStream.ReadFirst | Trace/InputStream.cs:112 | the first read of the skip returns the first pending character, or null when nothing is pending |
| InputStreams.InputStream.ReadNext | Trace/InputStream.cs:118-122 | each later read of the skip returns the next pending character and moves the location one step along the trail, or returns null at the end |
| InputStreams.InputStream.SkipComment | Trace/InputStream.cs:115-119 | the inner loop reads exactly the rest of the comment, up to and including its carriage return |
| InputStreams.InputStream.SkipOne | Trace/InputStream.cs:113-127 | one turn of the skip's loop consumes one blank or one whole comment and reads the next character |
| InputStreams.InputStream.ConsumeSkippable | Trace/InputStream.cs:113-128 | the skip's loop consumes exactly `Skipped` characters and stops on the first other character, or at the end of the input |
| InputStreams.InputStream.PushBack | Trace/InputStream.cs:131 | pushing back the character that stopped the skip makes it the first pending one again, at the location before it |
| InputStreams.InputStream.SkipWhitespacesAndComments | Trace/InputStream.cs:110-132 | the leading blanks and comments are consumed and nothing else, the location moves past exactly what was consumed, and the next character is pushed back; if the input ends after a blank or comment nothing is pushed back, and if nothing was pending the location returns to the saved one |
| InputStreams.MovedAllAppend | Trace/InputStream.cs:41-62 | reading two pieces one after the other moves the location as reading them together does |
| InputStreams.LinesCounted | Trace/InputStream.cs:48-51 | reading any text raises the line number by exactly the number of newlines in it and keeps the file name |
| InputStreams.ColumnsCounted | Trace/InputStream.cs:54-61 | on one line the column advances by one per character plus the extra width of each tab |
| InputStreams.ColumnAfterNewline | Trace/InputStream.cs:48-61 | after a newline and `k` plain characters the location is the next line at column `k + 2`, because the column is set to 1 and then counted |
| InputStreams.NoOccurrence | Trace/InputStream.cs:48-51 | text without a character counts it zero times |
| InputStreams.SkipIdempotent | Trace/InputStream.cs:110-132 | skipping again right after a skip consumes nothing |
| InputStreams.SkippedBlanks | Trace/InputStream.cs:113 | without comments the skip consumes exactly the leading run of spaces, tabs, newlines and carriage returns |
| InputStreams.UnclosedComment | Trace/InputStream.cs:118 | a comment with no carriage return after it never ends: the inner loop keeps reading past the end of the input |
| InputStreams.SkipInTest | Trace.Tests/SceneFileTests.cs:40 | in the reading test the skip consumes three spaces and a newline and reaches line 2, column 2 |
| InputStreams.ReadTestPushBack | Trace.Tests/SceneFileTests.cs:20-30 | reading `a`, pushing back `A` and reading it gives `a`, `A` at columns 2, 1, 2 of line 1 |
| InputStreams.ReadTestStart | Trace.Tests/SceneFileTests.cs:32-38 | the next reads give `b` and `c` at columns 3 and 4 of line 1 |
| InputStreams.ReadTestEnd | Trace.Tests/SceneFileTests.cs:42-58 | after the skip the reads give `d`, newline, `e`, `f` and then null, at (2, 3), (3, 2), (3, 3), (3, 4): one column more than the test expects after each newline |
| InputStreams.InputFileScenario | Trace.Tests/SceneFileTests.cs:11-58 | with the read as evidently intended, the whole reading test on "abc   \nd\nef" from a fresh stream gives the characters the test expects, at the locations the code as written produces |
| InputStreams.Moved | Trace/InputStream.cs:41-62 | `update_pos` for one character: a newline goes to the next line at column 2, a tab adds the tabulation width, anything else one column |
| InputStreams.MovedAll | Trace/InputStream.cs:41-62 | `update_pos` over a string; `InputStreams.MovedAllAppend`, `InputStreams.LinesCounted` and `InputStreams.ColumnsCounted` state where it ends |
| InputStreams.ConvertArrayToChar | Trace/InputStream.cs:82 | `Convert.ToChar` applied to the one-byte array itself, which resolves to the `object` overload and throws InvalidCastException for every buffer |
| InputStreams.InputStream.ReadCharAsWritten | Trace/InputStream.cs:67-91 | `read_char()` as written: a saved character and the end of input behave as in the corrected read, but a byte taken from the input throws InvalidCastException after leaving the stream, with the location unchanged |
| InputStreams.FirstReadThrows | Trace.Tests/SceneFileTests.cs:13-20 | on the test's stream the first `read_char()` as written throws, where the test and the corrected read give 'a' |

## Left out

- Floating point: every `float` is an exact real. Rounding, infinities, NaN and the tolerance that `is_close` absorbs in the tests are not modelled.
- `Math.Sqrt`, `Math.Atan2` and `Math.Acos` are uninterpreted functions, constrained only by `Shapes.Sound`. `Vec.norm` and `Vec.normalize` need the square root and are not part of this model.
- The (u, v) coordinates of a sphere hit rest on the uninterpreted `Atan2` and `Acos`. So the sphere tests that check them are not proved, only their range (`Shapes.SphereUvInUnitSquare`).
- `Onb`: a basis built from a vector with z exactly -0.0 is not modelled. `MathF.CopySign` gives -1 there, and reals have no negative zero. The onb test, which checks closeness of float results, is not modelled either.
- Transformations.TransformPoint: requires w to be non-zero; IEEE division by zero is not modelled. Shapes and cameras are required to have affine matrices, where w is 1.
- Transformations.InverseConsistent: assumes `InvM` is an inverse of `M` on both sides. That a one-sided inverse of a 4x4 real matrix is two-sided (so that `is_consistent` of `t` alone gives `is_consistent` of `t.inverse()`) is not proved; every transformation the model builds is shown two-sided directly (`TranslationInvertible`, `ScalingInvertible`, `RotationsInvertible`, `ComposeInvertible`).
- Transformations.Scaling: requires every component to be non-zero, because the source divides by them.
- Shapes.RayIntersection: requires a well-formed shape, one whose inverse matrix is affine.
- ImageTracers.ImageTracer.FireRay: requires an image at least two pixels wide and high. The source divides by width - 1 and height - 1, which would otherwise be zero.
- ImageTracers.ImageTracer.FireAllRays: requires an image with no pixel, or with at least two columns and two rows. An image with one column or one row and some pixels makes `fire_ray` divide by zero, which in single precision gives an infinite or NaN screen coordinate; floats are not modelled.
- The image tracer's orientation test expects the first pixel's corner at (0, 2, 1) and the last one's at (0, -2, -1). With the divisor as written (and kept on purpose), rows run upwards on the screen: the first corner lands at (0, 2, -1) (`ImageTracers.ScreenOrigin`) and the last at height 3 (`ImageTracers.ScreenHeight`).
- The anti-aliasing test calls an `ImageTracer` constructor with a sample count and a generator, and an `AliasingRenderer`. Neither exists in the tracer's source, so both are not part of this model.
- ImageTracers.ImageTracer.FireAllRays: takes the renderer as a function from rays to colours, as the source's `Func<Ray, Color>` does. A renderer that throws is a `Failure` result.
- Renderers: `Render` reads the world's shapes at the time of the call. The world is a reference, as in the source.
- BRDF evaluation and scattering (`Brdf.eval`, `scatter_ray`) are not part of this model. The BRDFs, materials and point lights are modelled as data only.
- The HdrImage tests of PFM writing, line reading, endianness and size parsing, and of PFM reading call methods that `HdrImage.cs` does not declare. They are not part of this model.
- HitRecord.is_close is not modelled: hits are compared exactly.
- Vec2d.is_close is not modelled: surface coordinates are compared exactly.
- Images.HdrImage.constructor: requires `width * height >= 0`. The source throws an `OverflowException` when the array size is negative, which happens exactly when one of the two sizes is negative. Two negative sizes give an image whose array has pixels but no valid coordinates, as in the source.
- Images: `Height * Width` in the constructor (HdrImage.cs:17) and `y * Width + x` in `pixel_offset` (HdrImage.cs:32) are 32-bit `int` products that wrap around in the source; the model computes them on unbounded integers, so images of more than 2^31 - 1 pixels are not modelled.
- Images.HdrImage: the source's `Width` and `Height` have public setters (HdrImage.cs:8-9). Nothing in the core sets them after construction, and the model keeps them constant, so an image resized without reallocating its array is not modelled.
- Pigments.GetColor: an `ImagePigment` holds a reference to its `HdrImage`, so a later `set_pixel` on that image shows through the pigment. The model copies the pixels into the pigment as a value, so that aliasing is not modelled; nothing in the core changes an image after building a pigment from it.
- Pigments.GetColor: the checkered pigment is modelled for every (u, v), negative ones included. `Pigments.CheckeredNegativeSquare` shows that the truncating `%` breaks the checkerboard there.
- RandomNumbers.Fraction: the division is exact. The source's `random_float` is documented as returning a number in [0, 1), but the division by 2^32 - 1 returns 1 for the largest output. In single precision, rounding makes more outputs give 1.
- RandomNumbers: that the output equals the xorshifted word rotated right by the rotation is proved only for a rotation of zero (`RandomNumbers.OutputWithoutRotation`). In general the output is stated as the source computes it, with shifts and an or.
- InputStreams.InputStream: the .NET `Stream` is the sequence of its characters and a cursor, each character standing for the one byte it is read from, so only single-byte (ASCII) input is modelled.
- InputStreams.InputStream.ReadChar: converts the byte read as evidently intended, `Convert.ToChar(buffer[0])`. As written, `Convert.ToChar(buffer)` throws on every byte read (see Findings, `InputStreams.InputStream.ReadCharAsWritten`).
- InputStreams.InputFileScenario: runs the reading test with the corrected read. With the read as written the test fails at its first `read_char()` (`InputStreams.FirstReadThrows`).
- InputStreams.InputStream.SkipWhitespacesAndComments: requires every comment it enters to be closed by a carriage return (`SkipEnds`). The comment loop's condition, `is not '\r' or '\n' or null`, stops only at a carriage return, so at the end of the input it reads for ever (`InputStreams.UnclosedComment`).
- The reading test in SceneFileTests.cs expects column 2 after reading `d`, and column 1 after the following newline. The code moves a newline to column 2 (`InputStreams.ColumnAfterNewline`), so the model gives one column more after each newline (`InputStreams.ReadTestEnd`).
- When nothing is pending, the skip pushes back the null it read, which moves the location back to the one saved by the previous read. The model states this as the code does.
- The scene language's tokens and keywords are modelled as data only, for the stream's saved token. `InputStream.cs` does not yet read tokens, and the scene parser is not part of this model.
- The command-line program (DMF-ImaGenerator/DMF-ImaGenerator.cs, DMF-ImaGenerator/ParserSettings.cs) and any I/O are not part of this model.

## Findings

| source | as written | input that shows it | evidently intended | confidence | as-written member | corrected member |
|---|---|---|---|---|---|---|
| Trace/InputStream.cs:82 | `Convert.ToChar(buffer)` passes the whole `byte[]`, which binds to `Convert.ToChar(object)` and throws `InvalidCastException`, because an array is not `IConvertible` | the first `read_char()` on a stream over "abc   \nd\nef", as in SceneFileTests.cs:13-20 (`InputStreams.FirstReadThrows`) | `Convert.ToChar(buffer[0])`, returning 'a' | high; not executed | InputStreams.InputStream.ReadCharAsWritten | InputStreams.InputStream.ReadChar |
