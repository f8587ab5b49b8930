/**
 * The image tracer (`Trace.Cameras.ImageTracer`): it shoots one ray through every pixel
 * of an image and stores there the colour a renderer answers for it.
 */
module ImageTracers {
  import opened Wrappers
  import opened Colors
  import opened Points
  import opened Transformations
  import opened Rays
  import opened Cameras
  import opened Images
  import opened Shapes
  import opened Worlds
  import opened Renderers

  /**
   * The screen coordinate of a pixel's sub-point along one side of the image:
   * `(index + offset) / (size - 1)`. The divisor is one less than the number of pixels,
   * which the source keeps on purpose.
   */
  function ScreenCoordinate(index: int, offset: real, size: int): real
    requires size > 1
  {
    (index as real + offset) / (size - 1) as real
  }

  /** Pixel (x, y) is visited before pixel (x0, y0): rows one after the other, columns inside a row. */
  predicate Precedes(x: int, y: int, x0: int, y0: int) {
    y < y0 || (y == y0 && x < x0)
  }

  /** The visiting order is the order of the pixels in the image's flat array. */
  lemma PrecedesIsOffsetOrder(width: int, height: int, x: int, y: int, x0: int, y0: int)
    requires ValidCoordinates(width, height, x, y) && ValidCoordinates(width, height, x0, y0)
    ensures Precedes(x, y, x0, y0) <==> PixelOffset(width, x, y) < PixelOffset(width, x0, y0)
  {
    if y < y0 {
      MultiplyMonotone(y + 1, y0, width);
    } else if y > y0 {
      MultiplyMonotone(y0 + 1, y, width);
    }
  }

  class ImageTracer {
    var Image: HdrImage
    var Camera: Camera

    /** The image has at least two pixels each way and the camera maps points affinely. */
    ghost predicate Valid()
      reads this, Image
    {
      Image.Valid() && Image.Width > 1 && Image.Height > 1 && IsAffine(Camera.Transformation.M)
    }

    /**
     * The tracer can paint its image: the image has at least two pixels each way, or no
     * pixel at all, in which case the loops never fire a ray.
     */
    ghost predicate Traceable()
      reads this, Image
    {
      Image.Valid() && IsAffine(Camera.Transformation.M)
      && ((Image.Width > 1 && Image.Height > 1) || Image.Width <= 0 || Image.Height <= 0)
    }

    /** `ImageTracer(image, camera)`. */
    constructor(image: HdrImage, camera: Camera)
      ensures Image == image && Camera == camera
    {
      Image := image;
      Camera := camera;
    }

    /**
     * `fire_ray(col, row, uPixel, vPixel)`: the camera's ray through screen point
     * (u, v) = ((col + uPixel) / (width - 1), (row + vPixel) / (height - 1)); the sub-pixel
     * offsets default to the pixel's centre.
     */
    function FireRay(col: int, row: int, uPixel: real := 0.5, vPixel: real := 0.5): (r: Ray)
      requires Valid()
      reads this, Image
      ensures var u, v := ScreenCoordinate(col, uPixel, Image.Width), ScreenCoordinate(row, vPixel, Image.Height);
        CanFire(Camera, u, v) && r == Cameras.FireRay(Camera, u, v)
    {
      var u := ScreenCoordinate(col, uPixel, Image.Width);
      var v := ScreenCoordinate(row, vPixel, Image.Height);
      FireRayAt(Camera, u, v, 0.0);
      Cameras.FireRay(Camera, u, v)
    }

    /** The colour the renderer answers for the ray through the centre of pixel (col, row). */
    function Rendered(shade: Ray --> Result<Color>, col: int, row: int): Result<Color>
      requires Traceable() && ValidCoordinates(Image.Width, Image.Height, col, row)
      requires forall ray :: shade.requires(ray)
      reads this, Image
    {
      shade(FireRay(col, row))
    }

    /** Every pixel visited before (col, row) holds the colour rendered for it. */
    ghost predicate PaintedBefore(shade: Ray --> Result<Color>, col: int, row: int)
      requires Traceable() && forall ray :: shade.requires(ray)
      reads this, Image, Image.Pixels
    {
      forall x, y :: (ValidCoordinates(Image.Width, Image.Height, x, y) && Precedes(x, y, col, row) ==>
                        Rendered(shade, x, y).Success? && Image.Pixel(x, y) == Rendered(shade, x, y).value)
    }

    /**
     * `fire_all_rays(renderer)`: row after row, and column after column inside a row, the
     * pixel gets the colour rendered for its ray. When the renderer throws, the exception
     * ends the loop: the pixels visited before keep their new colours, the rest their old ones.
     */
    method FireAllRays(shade: Ray --> Result<Color>) returns (outcome: Result<()>)
      requires Traceable() && forall ray :: shade.requires(ray)
      modifies Image.Pixels
      ensures Traceable()
      ensures outcome.Success? <==> forall x, y :: (ValidCoordinates(Image.Width, Image.Height, x, y) ==>
                                          Rendered(shade, x, y).Success?)
      ensures outcome.Success? ==> forall x, y :: (ValidCoordinates(Image.Width, Image.Height, x, y) ==>
                                         Image.Pixel(x, y) == Rendered(shade, x, y).value)
      ensures outcome.Failure? ==> exists x0, y0 :: (ValidCoordinates(Image.Width, Image.Height, x0, y0)
                                     && Rendered(shade, x0, y0) == Failure(outcome.error)
                                     && PaintedBefore(shade, x0, y0)
                                     && forall x, y :: (ValidCoordinates(Image.Width, Image.Height, x, y) && !Precedes(x, y, x0, y0) ==>
                                                              Image.Pixel(x, y) == old(Image.Pixel(x, y))))
    {
      var row := 0;
      while row < Image.Height
        invariant 0 <= row && (Image.Height >= 0 ==> row <= Image.Height)
        invariant PaintedBefore(shade, 0, row)
        invariant forall x, y :: (ValidCoordinates(Image.Width, Image.Height, x, y) && !Precedes(x, y, 0, row) ==>
                                        Image.Pixel(x, y) == old(Image.Pixel(x, y)))
      {
        var col := 0;
        while col < Image.Width
          invariant 0 <= col && (Image.Width >= 0 ==> col <= Image.Width)
          invariant PaintedBefore(shade, col, row)
          invariant forall x, y :: (ValidCoordinates(Image.Width, Image.Height, x, y) && !Precedes(x, y, col, row) ==>
                                          Image.Pixel(x, y) == old(Image.Pixel(x, y)))
        {
          var ray := FireRay(col, row);
          var color := shade(ray);
          if color.Failure? {
            assert ValidCoordinates(Image.Width, Image.Height, col, row);
            assert Rendered(shade, col, row) == color;
            outcome := Failure(color.error);
            return;
          }
          Image.SetPixel(col, row, color.value);
          forall x, y | ValidCoordinates(Image.Width, Image.Height, x, y) && Precedes(x, y, col + 1, row)
            ensures Rendered(shade, x, y).Success? && Image.Pixel(x, y) == Rendered(shade, x, y).value
          {
            if (x, y) != (col, row) {
              assert Precedes(x, y, col, row);
            }
          }
          col := col + 1;
        }
        row := row + 1;
      }
      outcome := Success(());
    }
  }

  /** The default offsets aim at the pixel's centre: pixel (2, 1) is pixel (0, 0) shifted by (2.5, 1.5). */
  lemma SubPixelMapping(tracer: ImageTracer)
    requires tracer.Valid()
    ensures tracer.FireRay(0, 0, 2.5, 1.5) == tracer.FireRay(2, 1)
  {
    assert ScreenCoordinate(0, 2.5, tracer.Image.Width) == ScreenCoordinate(2, 0.5, tracer.Image.Width);
    assert ScreenCoordinate(0, 1.5, tracer.Image.Height) == ScreenCoordinate(1, 0.5, tracer.Image.Height);
  }

  /**
   * On the 4 x 2 image of the tests the first pixel's corner (offsets 0, 0) maps to
   * (u, v) = (0, 0) and the last pixel's far corner (offsets 1, 1) to (4/3, 2): with the
   * divisor as written the rows run upwards on the screen and the last column lies
   * beyond its edge.
   */
  lemma CornerScreenCoordinates()
    ensures ScreenCoordinate(0, 0.0, 4) == 0.0 && ScreenCoordinate(0, 0.0, 2) == 0.0
    ensures ScreenCoordinate(3, 1.0, 4) == 4.0 / 3.0 && ScreenCoordinate(1, 1.0, 2) == 2.0
  {
  }

  /**
   * Through an untransformed camera the screen point (0, 0), where the first pixel's
   * corner lands, is reached at (0, aspect ratio, -1): the bottom of the screen, where the
   * tests expect the top.
   */
  lemma ScreenOrigin(cam: Camera)
    requires cam.Transformation == IdentityTransformation()
    ensures CanFire(cam, 0.0, 0.0)
    ensures At(Cameras.FireRay(cam, 0.0, 0.0), 1.0) == Point(0.0, cam.AspectRatio, -1.0)
  {
    UntransformedScreenPoint(cam, 0.0, 0.0);
  }

  /**
   * Through an untransformed camera the ray for (u, v) crosses the screen at height
   * 2v - 1: for the last pixel's far corner of the 4 x 2 image, v = 2 gives 3, above the
   * screen's top edge at 1, where the tests expect -1.
   */
  lemma ScreenHeight(cam: Camera, u: real, v: real)
    requires cam.Transformation == IdentityTransformation()
    ensures CanFire(cam, u, v)
    ensures At(Cameras.FireRay(cam, u, v), 1.0).Z == 2.0 * v - 1.0
  {
    UntransformedScreenPoint(cam, u, v);
  }

  /**
   * The coverage test: a 4 x 2 image traced with a perspective camera and the `OneColor`
   * renderer ends with every pixel (1, 2, 3).
   */
  method ImageCoverage(world: World, math: MathLib) returns (image: HdrImage)
    requires world.Valid()
    ensures image.Valid() && image.Width == 4 && image.Height == 2
    ensures forall x, y :: ValidCoordinates(image.Width, image.Height, x, y) ==> image.Pixel(x, y) == Color(1.0, 2.0, 3.0)
  {
    image := new HdrImage(4, 2);
    var tracer := new ImageTracer(image, NewPerspective(2.0, IdentityTransformation()));
    var renderer := NewOneColor(world);
    var shapes := world.Shapes;
    var shade := ray requires AllWellFormed(shapes) => Shade(renderer, shapes, ray, math);
    var outcome := tracer.FireAllRays(shade);
  }

  /** Tracing an image with no pixel fires no ray: it succeeds whatever the renderer. */
  method EmptyImageTrace(width: int, height: int, camera: Camera, shade: Ray --> Result<Color>) returns (outcome: Result<()>)
    requires width * height >= 0 && (width <= 0 || height <= 0)
    requires IsAffine(camera.Transformation.M) && forall ray :: shade.requires(ray)
    ensures outcome.Success?
  {
    var image := new HdrImage(width, height);
    var tracer := new ImageTracer(image, camera);
    outcome := tracer.FireAllRays(shade);
  }
}
