/**
 * What the scene-file parser fills in (`Trace.Scene`): the camera, if one was declared,
 * the named float variables and materials, the variables overridden from the command
 * line, and the world of shapes.
 */
module Scenes {
  import opened Wrappers
  import Cams = Cameras
  import Mat = Materials
  import W = Worlds

  class Scene {
    var Camera: Option<Cams.Camera>
    var FloatVariables: map<string, real>
    var Materials: map<string, Mat.Material>
    var OverriddenVariables: seq<string>
    var World: W.World

    /** A new scene has no camera, no variable, no material and an empty world of its own. */
    constructor()
      ensures Camera.None? && FloatVariables == map[] && Materials == map[] && OverriddenVariables == []
      ensures fresh(World) && World.Shapes == [] && World.Valid()
    {
      Camera := None;
      FloatVariables := map[];
      Materials := map[];
      OverriddenVariables := [];
      World := new W.World();
    }
  }
}
