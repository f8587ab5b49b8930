/** A point light (`Trace.PointLight`): a position, a colour and a linear radius. */
module Lights {
  import opened Points
  import opened Colors

  datatype PointLight = PointLight(Position: Point, Color: Color, LinearRadius: real)

  /** `PointLight(position, color)`: the linear radius defaults to 0. */
  function NewPointLight(position: Point, color: Color, linearRadius: real := 0.0): (l: PointLight)
    ensures l.Position == position && l.Color == color && l.LinearRadius == linearRadius
  {
    PointLight(position, color, linearRadius)
  }
}
