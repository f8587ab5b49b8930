/**
 * The renderers (`Trace.Renderer` and the three classes below it): each turns a ray into
 * the colour seen along it, looking the ray up in the world it was given.
 */
module Renderers {
  import opened Wrappers
  import opened Colors
  import opened Rays
  import opened Pigments
  import opened Materials
  import opened Shapes
  import opened Worlds

  /** The renderer kinds; each keeps the world and the background colour of the base class. */
  datatype Renderer =
    | Base(World: World, BackgroundColor: Color)
    | OneColor(World: World, BackgroundColor: Color)
    | OnOff(World: World, BackgroundColor: Color, ObjectColor: Color)
    | Flat(World: World, BackgroundColor: Color)

  /** `OneColor(world)`: the background is black. */
  function NewOneColor(world: World): (r: Renderer)
    ensures r.OneColor? && r.World == world && r.BackgroundColor == Black()
  {
    OneColor(world, Black())
  }

  /** `OnOffRenderer(world)`: objects white on a black background. */
  function NewOnOff(world: World): (r: Renderer)
    ensures r.OnOff? && r.World == world && r.BackgroundColor == Black() && r.ObjectColor == White()
  {
    OnOff(world, Black(), White())
  }

  /** `FlatRenderer(world)`: the background is black. */
  function NewFlat(world: World): (r: Renderer)
    ensures r.Flat? && r.World == world && r.BackgroundColor == Black()
  {
    Flat(world, Black())
  }

  /** What `world.ray_intersection(ray)` returns: the nearest hit among the world's shapes. */
  function WorldHit(world: World, ray: Ray, math: MathLib): Option<HitRecord>
    requires world.Valid()
    reads world
  {
    Closest(Hits(world.Shapes, ray, math))
  }

  /**
   * The flat colour of a hit: the material's reflected pigment plus its emitted pigment,
   * both read at the hit's surface coordinates.
   */
  function FlatColor(hit: HitRecord): (r: Result<Color>)
    ensures r.Success? <==> (GetColor(hit.Shape.Material.Brdf.Pigment, hit.SurfacePoint).Success?
      && GetColor(hit.Shape.Material.EmittedRadiance, hit.SurfacePoint).Success?)
  {
    var material := hit.Shape.Material;
    var reflected := GetColor(material.Brdf.Pigment, hit.SurfacePoint);
    var emitted := GetColor(material.EmittedRadiance, hit.SurfacePoint);
    if reflected.Failure? then reflected
    else if emitted.Failure? then emitted
    else Success(Add(reflected.value, emitted.value))
  }

  /**
   * What the renderer answers for a ray when its world holds `shapes`. The base class
   * throws; `OneColor` answers (1, 2, 3) whatever the ray; `OnOffRenderer` tells hit from
   * miss; `FlatRenderer` colours the nearest hit by its material, which fails only where an
   * image pigment's lookup does.
   */
  function Shade(r: Renderer, shapes: seq<Shape>, ray: Ray, math: MathLib): (c: Result<Color>)
    requires AllWellFormed(shapes)
    ensures r.Base? <==> c.Failure? && c.error == "NotImplementedException"
  {
    match r
    case Base(_, _) => Failure("NotImplementedException")
    case OneColor(_, _) => Success(Color(1.0, 2.0, 3.0))
    case OnOff(_, background, objectColor) =>
      Success(if Closest(Hits(shapes, ray, math)).Some? then objectColor else background)
    case Flat(_, background) =>
      var hit := Closest(Hits(shapes, ray, math));
      if hit.None? then Success(background)
      else match FlatColor(hit.value)
        case Success(c) => Success(c)
        case Failure(e) => assert e != "NotImplementedException"; Failure(e)
  }

  /** `Render(ray)`: the answer for the shapes the renderer's world holds now. */
  function Render(r: Renderer, ray: Ray, math: MathLib): (c: Result<Color>)
    requires r.World.Valid()
    reads r.World
    ensures r.Base? <==> c.Failure? && c.error == "NotImplementedException"
  {
    Shade(r, r.World.Shapes, ray, math)
  }

  /** `OneColor` paints every ray (1, 2, 3). */
  lemma OneColorConstant(world: World, ray: Ray, math: MathLib)
    requires world.Valid()
    ensures Render(NewOneColor(world), ray, math) == Success(Color(1.0, 2.0, 3.0))
  {
  }

  /**
   * The on-off renderer answers its object colour exactly when some shape of the world
   * is hit, and its background colour exactly when none is.
   */
  lemma OnOffSeesAnyShape(r: Renderer, ray: Ray, math: MathLib)
    requires r.OnOff? && r.World.Valid() && r.ObjectColor != r.BackgroundColor
    ensures Render(r, ray, math) == Success(r.ObjectColor) <==>
      exists i :: 0 <= i < |r.World.Shapes| && Shapes.RayIntersection(r.World.Shapes[i], ray, math).Some?
    ensures Render(r, ray, math) == Success(r.BackgroundColor) <==>
      forall i :: 0 <= i < |r.World.Shapes| ==> Shapes.RayIntersection(r.World.Shapes[i], ray, math).None?
  {
    ClosestNoneIff(Hits(r.World.Shapes, ray, math));
  }

  /** On a miss the flat renderer answers the background colour. */
  lemma FlatMiss(r: Renderer, ray: Ray, math: MathLib)
    requires r.Flat? && r.World.Valid() && WorldHit(r.World, ray, math).None?
    ensures Render(r, ray, math) == Success(r.BackgroundColor)
  {
  }

  /**
   * On a hit the flat renderer answers the sum of the two pigments of the material of the
   * nearest shape hit, read at the hit's surface coordinates; it fails only if one of them does.
   */
  lemma FlatHit(r: Renderer, ray: Ray, math: MathLib)
    requires r.Flat? && r.World.Valid() && WorldHit(r.World, ray, math).Some?
    ensures var hit := WorldHit(r.World, ray, math).value;
      var reflected := GetColor(hit.Shape.Material.Brdf.Pigment, hit.SurfacePoint);
      var emitted := GetColor(hit.Shape.Material.EmittedRadiance, hit.SurfacePoint);
      Render(r, ray, math).Success? <==> reflected.Success? && emitted.Success?
    ensures var hit := WorldHit(r.World, ray, math).value;
      var reflected := GetColor(hit.Shape.Material.Brdf.Pigment, hit.SurfacePoint);
      var emitted := GetColor(hit.Shape.Material.EmittedRadiance, hit.SurfacePoint);
      Render(r, ray, math).Success? ==> Render(r, ray, math).value == Add(reflected.value, emitted.value)
  {
  }

  /** A shape with the default material is rendered flat as white wherever it is hit. */
  lemma FlatDefaultMaterial(r: Renderer, ray: Ray, math: MathLib)
    requires r.Flat? && r.World.Valid() && WorldHit(r.World, ray, math).Some?
    requires WorldHit(r.World, ray, math).value.Shape.Material == NewMaterial()
    ensures Render(r, ray, math) == Success(Color(1.0, 1.0, 1.0))
  {
    var hit := WorldHit(r.World, ray, math).value;
    UniformEverywhere(White(), hit.SurfacePoint);
    UniformEverywhere(Black(), hit.SurfacePoint);
  }

  /** A uniform-pigment shape that emits nothing is rendered flat in its own colour. */
  lemma FlatUniform(r: Renderer, ray: Ray, math: MathLib, c: Color)
    requires r.Flat? && r.World.Valid() && WorldHit(r.World, ray, math).Some?
    requires WorldHit(r.World, ray, math).value.Shape.Material == NewMaterial(NewDiffuse(Uniform(c)))
    ensures Render(r, ray, math) == Success(c)
  {
    var hit := WorldHit(r.World, ray, math).value;
    UniformEverywhere(c, hit.SurfacePoint);
    UniformEverywhere(Black(), hit.SurfacePoint);
  }
}
