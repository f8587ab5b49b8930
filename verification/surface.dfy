/** Points on a parametric surface (`Trace.Geometry.Vec2d`). */
module SurfaceCoordinates {
  datatype Vec2d = Vec2d(U: real, V: real)
}
