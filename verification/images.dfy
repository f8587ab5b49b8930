/**
 * The HDR image (`Trace.HdrImage`): a width x height grid of colours kept in one
 * flat array, row after row.
 */
module Images {
  import opened Colors

  /** `valid_coordinates`: the column lies in [0, width) and the row in [0, height). */
  predicate ValidCoordinates(width: int, height: int, x: int, y: int) {
    0 <= x < width && 0 <= y < height
  }

  /** `pixel_offset`: the index of pixel (x, y) in the flat array. */
  function PixelOffset(width: int, x: int, y: int): int {
    y * width + x
  }

  /** Every valid pixel has an index inside the array. */
  lemma OffsetInRange(width: int, height: int, x: int, y: int)
    requires ValidCoordinates(width, height, x, y)
    ensures 0 <= PixelOffset(width, x, y) < width * height
  {
    assert y * width <= (height - 1) * width by {
      assert (height - 1 - y) * width >= 0;
    }
  }

  /** Distinct valid pixels never share an index. */
  lemma OffsetInjective(width: int, height: int, x1: int, y1: int, x2: int, y2: int)
    requires ValidCoordinates(width, height, x1, y1) && ValidCoordinates(width, height, x2, y2)
    requires PixelOffset(width, x1, y1) == PixelOffset(width, x2, y2)
    ensures x1 == x2 && y1 == y2
  {
    if y1 != y2 {
      var lo, hi, xLo, xHi := if y1 < y2 then y1 else y2, if y1 < y2 then y2 else y1,
        if y1 < y2 then x1 else x2, if y1 < y2 then x2 else x1;
      MultiplyMonotone(lo + 1, hi, width);
      assert false;
    }
  }

  lemma MultiplyMonotone(a: int, b: int, w: int)
    requires a <= b && w >= 0
    ensures a * w <= b * w
  {
    var d := b - a;
    assert b * w == a * w + d * w;
  }

  /** Every index of the array is the offset of exactly the pixel (index % width, index / width). */
  lemma OffsetRoundTrip(width: int, height: int, index: int)
    requires width > 0 && 0 <= index < width * height
    ensures ValidCoordinates(width, height, index % width, index / width)
    ensures PixelOffset(width, index % width, index / width) == index
  {
    var y := index / width;
    if y >= height {
      MultiplyMonotone(height, y, width);
    }
  }

  /** Which coordinates of the 7 x 4 image of the tests are valid. */
  lemma ValidCoordinatesExample()
    ensures ValidCoordinates(7, 4, 0, 0) && ValidCoordinates(7, 4, 6, 3)
    ensures !ValidCoordinates(7, 4, -1, 0) && !ValidCoordinates(7, 4, 0, -1)
    ensures !ValidCoordinates(7, 4, 7, 0) && !ValidCoordinates(7, 4, 0, 4)
  {
  }

  /** The offsets of the 7 x 4 image of the tests. */
  lemma OffsetExample()
    ensures PixelOffset(7, 0, 0) == 0 && PixelOffset(7, 3, 2) == 17 && PixelOffset(7, 6, 3) == 27
  {
    assert PixelOffset(7, 0, 0) == 0 * 7 + 0;
    assert PixelOffset(7, 3, 2) == 2 * 7 + 3;
    assert PixelOffset(7, 6, 3) == 3 * 7 + 6;
  }

  /**
   * The contents of an image as a value: what a texture (`ImagePigment`) reads.
   * The array always holds exactly width * height colours.
   */
  datatype TextureData = TextureData(Width: int, Height: int, Pixels: seq<Color>)
  type Texture = t: TextureData | |t.Pixels| == t.Width * t.Height
    witness TextureData(0, 0, [])

  class HdrImage {
    const Width: int
    const Height: int
    const Pixels: array<Color>

    /**
     * The array holds `Width * Height` colours: one per pixel, or, when both sizes are
     * negative, a positive number of colours that no valid pixel reaches.
     */
    ghost predicate Valid() {
      Pixels.Length == Width * Height
    }

    /** The colour stored for pixel (x, y). */
    function Pixel(x: int, y: int): Color
      requires Valid() && ValidCoordinates(Width, Height, x, y)
      reads Pixels
    {
      OffsetInRange(Width, Height, x, y);
      Pixels[PixelOffset(Width, x, y)]
    }

    /** The image's current contents as a value. */
    function Snapshot(): (t: Texture)
      requires Valid()
      reads Pixels
      ensures t.Width == Width && t.Height == Height && t.Pixels == Pixels[..]
    {
      TextureData(Width, Height, Pixels[..])
    }

    /**
     * `HdrImage(width, height)`: every pixel starts black. Allocating the array throws
     * when the product of the sizes is negative, that is when exactly one of them is.
     */
    constructor(width: int, height: int)
      requires width * height >= 0
      ensures Width == width && Height == height && Valid() && fresh(Pixels)
      ensures forall x, y :: ValidCoordinates(Width, Height, x, y) ==> Pixel(x, y) == Black()
    {
      Width := width;
      Height := height;
      assert height * width >= 0;
      var pixels := new Color[height * width];
      var i := 0;
      while i < height * width
        invariant 0 <= i <= height * width
        invariant forall j :: 0 <= j < i ==> pixels[j] == Black()
      {
        pixels[i] := Black();
        i := i + 1;
      }
      Pixels := pixels;
      new;
      forall x, y | ValidCoordinates(Width, Height, x, y)
        ensures Pixel(x, y) == Black()
      {
        OffsetInRange(Width, Height, x, y);
      }
    }

    /** `GetPixel(x, y)`; the source asserts that the coordinates are valid. */
    method GetPixel(x: int, y: int) returns (c: Color)
      requires Valid() && ValidCoordinates(Width, Height, x, y)
      ensures c == Pixel(x, y)
    {
      OffsetInRange(Width, Height, x, y);
      c := Pixels[PixelOffset(Width, x, y)];
    }

    /** `SetPixel(x, y, c)`: pixel (x, y) becomes `c` and every other pixel keeps its colour. */
    method SetPixel(x: int, y: int, c: Color)
      requires Valid() && ValidCoordinates(Width, Height, x, y)
      modifies Pixels
      ensures Pixel(x, y) == c
      ensures forall x', y' | ValidCoordinates(Width, Height, x', y') && (x', y') != (x, y) :: Pixel(x', y') == old(Pixel(x', y'))
    {
      OffsetInRange(Width, Height, x, y);
      Pixels[PixelOffset(Width, x, y)] := c;
      forall x', y' | ValidCoordinates(Width, Height, x', y') && (x', y') != (x, y)
        ensures Pixel(x', y') == old(Pixel(x', y'))
      {
        OffsetInRange(Width, Height, x', y');
        if PixelOffset(Width, x', y') == PixelOffset(Width, x, y) {
          OffsetInjective(Width, Height, x', y', x, y);
        }
      }
    }
  }

  /** The pixel access test: on a new 7 x 4 image, the colour set at (3, 2) is the one read back there. */
  method PixelAccessExample() returns (c: Color)
    ensures c == Color(1.0, 2.0, 3.0)
  {
    var image := new HdrImage(7, 4);
    assert ValidCoordinates(image.Width, image.Height, 3, 2);
    image.SetPixel(3, 2, Color(1.0, 2.0, 3.0));
    c := image.GetPixel(3, 2);
  }
}
