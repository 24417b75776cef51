/** The floating-point vector types that mesh data carries. Their
    arithmetic is not modelled: only where they are stored and copied. */
module Vectors {
  datatype Vector = Vector(x: real, y: real, z: real)
  datatype Vector2D = Vector2D(x: real, y: real)
}
