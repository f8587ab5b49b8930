/**
 * Pigments (`Trace.IPigment` and its three classes): a colour for every point (u, v)
 * of a surface.
 */
module Pigments {
  import opened Wrappers
  import opened Colors
  import opened SurfaceCoordinates
  import opened Images

  datatype Pigment =
    | Uniform(Color: Color)
    | Checkered(Color1: Color, Color2: Color, NumOfSteps: int)
    | Image(Texture: Texture)

  /** `CheckeredPigment(color1, color2)`: ten squares along each direction by default. */
  function NewCheckered(color1: Color, color2: Color, numOfSteps: int := 10): (p: Pigment)
    ensures p.Checkered? && p.Color1 == color1 && p.Color2 == color2 && p.NumOfSteps == numOfSteps
  {
    Checkered(color1, color2, numOfSteps)
  }

  /** The C# cast `(int) x` of a real: it drops the fractional part, rounding toward zero. */
  function Truncate(x: real): (n: int)
    ensures x >= 0.0 ==> 0.0 <= n as real <= x < n as real + 1.0
    ensures x < 0.0 ==> n as real - 1.0 < x <= n as real <= 0.0
  {
    if x >= 0.0 then x.Floor else -((-x).Floor)
  }

  /** The C# remainder `a % m` for `m > 0`: it takes the sign of `a`, so odd negatives give -1 for `m` = 2. */
  function Remainder(a: int, m: int): (r: int)
    requires m > 0
    ensures a >= 0 ==> 0 <= r < m && r == a % m
    ensures a < 0 ==> -m < r <= 0
  {
    if a >= 0 then a % m else -((-a) % m)
  }

  /** Modulo 2 the remainder is 0 for even numbers and otherwise 1 or -1, following the sign. */
  lemma RemainderTwo(a: int)
    ensures Remainder(a, 2) == if a % 2 == 0 then 0 else if a >= 0 then 1 else -1
  {
  }

  /** The column of the texture read for `u`: the truncated product, kept below the width. */
  function TextureColumn(t: Texture, u: real): int {
    var col := Truncate(u * t.Width as real);
    if col >= t.Width then t.Width - 1 else col
  }

  /** The row of the texture read for `v`: the truncated product, kept below the height. */
  function TextureRow(t: Texture, v: real): int {
    var row := Truncate(v * t.Height as real);
    if row >= t.Height then t.Height - 1 else row
  }

  /**
   * The checkered pigment's colour: the first one when the floors of u * n and v * n have
   * the same C# remainder modulo 2.
   */
  function CheckeredColor(c1: Color, c2: Color, n: int, uv: Vec2d): Color {
    if Remainder((uv.U * n as real).Floor, 2) == Remainder((uv.V * n as real).Floor, 2) then c1 else c2
  }

  /**
   * `get_color(uv)`. Only the image pigment can fail: the pixel lookup asserts that the
   * coordinates are valid. The cast truncates toward zero, so a slightly negative `u`
   * still reads column 0; a `u` of -1/width or less, a `v` of -1/height or less, or an
   * empty texture breaks the lookup.
   */
  function GetColor(p: Pigment, uv: Vec2d): (r: Result<Color>)
    ensures !p.Image? ==> r.Success?
    ensures p.Image? ==> (r.Success? <==> ValidCoordinates(p.Texture.Width, p.Texture.Height,
      TextureColumn(p.Texture, uv.U), TextureRow(p.Texture, uv.V)))
  {
    match p
    case Uniform(c) => Success(c)
    case Checkered(c1, c2, n) => Success(CheckeredColor(c1, c2, n, uv))
    case Image(t) =>
      var col, row := TextureColumn(t, uv.U), TextureRow(t, uv.V);
      if ValidCoordinates(t.Width, t.Height, col, row) then
        OffsetInRange(t.Width, t.Height, col, row);
        Success(t.Pixels[PixelOffset(t.Width, col, row)])
      else
        Failure("assertion failed: invalid coordinates")
  }

  /** A uniform pigment has its colour everywhere. */
  lemma UniformEverywhere(c: Color, uv: Vec2d)
    ensures GetColor(Uniform(c), uv) == Success(c)
  {
  }

  /** The textbook checkerboard: the square (i, j) gets the first colour when i + j is even. */
  function CheckerboardColor(c1: Color, c2: Color, n: int, uv: Vec2d): Color {
    if ((uv.U * n as real).Floor + (uv.V * n as real).Floor) % 2 == 0 then c1 else c2
  }

  /** A checkered pigment always answers with one of its two colours. */
  lemma CheckeredTwoColors(c1: Color, c2: Color, n: int, uv: Vec2d)
    ensures GetColor(Checkered(c1, c2, n), uv) == Success(c1) || GetColor(Checkered(c1, c2, n), uv) == Success(c2)
  {
  }

  /** On the non-negative quarter plane the pigment is the textbook checkerboard. */
  lemma CheckeredIsCheckerboard(c1: Color, c2: Color, n: int, uv: Vec2d)
    requires n >= 0 && uv.U >= 0.0 && uv.V >= 0.0
    ensures CheckeredColor(c1, c2, n, uv) == CheckerboardColor(c1, c2, n, uv)
  {
    ProductNonNegative(uv.U, n as real);
    ProductNonNegative(uv.V, n as real);
    SameParity((uv.U * n as real).Floor, (uv.V * n as real).Floor);
  }

  lemma ProductNonNegative(x: real, y: real)
    requires x >= 0.0 && y >= 0.0
    ensures x * y >= 0.0
  {
  }

  lemma SameParity(i: int, j: int)
    requires i >= 0 && j >= 0
    ensures (Remainder(i, 2) == Remainder(j, 2)) <==> (i + j) % 2 == 0
  {
  }

  /**
   * With a negative coordinate the C# remainder breaks the pattern: the squares with
   * indices (-1, 1) are both odd, which the textbook board paints with the first colour,
   * but -1 % 2 is -1 and 1 % 2 is 1, so the pigment answers with the second.
   */
  lemma CheckeredNegativeSquare(c1: Color, c2: Color)
    requires c1 != c2
    ensures GetColor(Checkered(c1, c2, 10), Vec2d(-0.05, 0.15)) == Success(c2)
    ensures CheckerboardColor(c1, c2, 10, Vec2d(-0.05, 0.15)) == c1
  {
    assert (-0.05 * 10 as real).Floor == -1;
    assert (0.15 * 10 as real).Floor == 1;
  }

  /** The 2 x 2 checkerboard of the tests. */
  lemma CheckeredExample(c1: Color, c2: Color)
    ensures GetColor(Checkered(c1, c2, 2), Vec2d(0.25, 0.25)) == Success(c1)
    ensures GetColor(Checkered(c1, c2, 2), Vec2d(0.75, 0.25)) == Success(c2)
    ensures GetColor(Checkered(c1, c2, 2), Vec2d(0.25, 0.75)) == Success(c2)
    ensures GetColor(Checkered(c1, c2, 2), Vec2d(0.75, 0.75)) == Success(c1)
  {
    assert (0.25 * 2 as real).Floor == 0;
    assert (0.75 * 2 as real).Floor == 1;
  }

  /**
   * On a non-empty texture every (u, v) of the unit square reads a valid pixel: the
   * truncation lands in [0, width] and the clamp moves `u` = 1 onto the last column.
   */
  lemma ImageUnitSquare(t: Texture, uv: Vec2d)
    requires t.Width >= 1 && t.Height >= 1
    requires 0.0 <= uv.U <= 1.0 && 0.0 <= uv.V <= 1.0
    ensures ValidCoordinates(t.Width, t.Height, TextureColumn(t, uv.U), TextureRow(t, uv.V))
    ensures GetColor(Image(t), uv).Success?
  {
    assert uv.U * t.Width as real <= 1.0 * t.Width as real;
    assert uv.V * t.Height as real <= 1.0 * t.Height as real;
  }

  /** The 2 x 2 texture of the tests: the corners of the unit square read the four pixels. */
  lemma ImageExample(c00: Color, c10: Color, c01: Color, c11: Color)
    ensures var t := TextureData(2, 2, [c00, c10, c01, c11]);
      GetColor(Image(t), Vec2d(0.0, 0.0)) == Success(c00)
      && GetColor(Image(t), Vec2d(1.0, 0.0)) == Success(c10)
      && GetColor(Image(t), Vec2d(0.0, 1.0)) == Success(c01)
      && GetColor(Image(t), Vec2d(1.0, 1.0)) == Success(c11)
  {
    var t: Texture := TextureData(2, 2, [c00, c10, c01, c11]);
    assert TextureColumn(t, 0.0) == 0 && TextureColumn(t, 1.0) == 1;
    assert TextureRow(t, 0.0) == 0 && TextureRow(t, 1.0) == 1;
    assert PixelOffset(2, 1, 0) == 0 * 2 + 1;
    assert PixelOffset(2, 0, 1) == 1 * 2 + 0;
    assert PixelOffset(2, 1, 1) == 1 * 2 + 1;
  }
}
