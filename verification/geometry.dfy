/** Plain vector values shared by the grid and the mesh builder.
    Unity's single-precision `Vector2`/`Vector3` are modelled with exact `real`
    components: float rounding is not part of this model. */
module Geometry {

  datatype Vec2 = Vec2(x: real, y: real)

  datatype Vec3 = Vec3(x: real, y: real, z: real)

  /** `Vector2.zero`, the default element of a fresh `Vector2[]`. */
  const Zero2: Vec2 := Vec2(0.0, 0.0)

  /** `Vector3.zero`, the default element of a fresh `Vector3[]`. */
  const Zero3: Vec3 := Vec3(0.0, 0.0, 0.0)

  function Add(a: Vec3, b: Vec3): Vec3 {
    Vec3(a.x + b.x, a.y + b.y, a.z + b.z)
  }

  function Scale(a: Vec3, k: real): Vec3 {
    Vec3(a.x * k, a.y * k, a.z * k)
  }

  /** Unity's two-argument `new Vector3(x, y)`: the z component is zero. */
  function Flat(x: real, y: real): Vec3 {
    Vec3(x, y, 0.0)
  }
}
