/**
 * Materials (`Trace.Material`) and the data part of the BRDFs (`Trace.Brdf`): which
 * pigment a surface reflects with and which it emits.
 */
module Materials {
  import opened Colors
  import opened Pigments

  /** White, the pigment a BRDF gets when none is given. */
  function White(): (c: Color)
    ensures c.R == 1.0 && c.G == 1.0 && c.B == 1.0
  {
    Color(1.0, 1.0, 1.0)
  }

  datatype Brdf =
    | Diffuse(Pigment: Pigment)
    | Specular(Pigment: Pigment, ThresholdAngleRad: real)

  /** `DiffuseBrdf()`: a uniform white pigment. */
  function NewDiffuse(pigment: Pigment := Uniform(White())): (b: Brdf)
    ensures b.Diffuse? && b.Pigment == pigment
  {
    Diffuse(pigment)
  }

  /** `SpecularBrdf()`: a uniform white pigment and a zero threshold angle. */
  function NewSpecular(pigment: Pigment := Uniform(White()), thresholdAngleRad: real := 0.0): (b: Brdf)
    ensures b.Specular? && b.Pigment == pigment && b.ThresholdAngleRad == thresholdAngleRad
  {
    Specular(pigment, thresholdAngleRad)
  }

  datatype Material = Material(Brdf: Brdf, EmittedRadiance: Pigment)

  /** `Material()` and `Material(brdf)`: white diffuse reflection, no emission (uniform black). */
  function NewMaterial(brdf: Brdf := NewDiffuse(), emittedRadiance: Pigment := Uniform(Black())): (m: Material)
    ensures m.Brdf == brdf && m.EmittedRadiance == emittedRadiance
  {
    Material(brdf, emittedRadiance)
  }

  /** The default material reflects uniform white and emits uniform black. */
  lemma DefaultMaterial()
    ensures NewMaterial().Brdf == Diffuse(Uniform(Color(1.0, 1.0, 1.0)))
    ensures NewMaterial().EmittedRadiance == Uniform(Color(0.0, 0.0, 0.0))
  {
  }
}
