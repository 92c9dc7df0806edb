/** The element type `Vector3D`. Its header is not available; it is
    modelled with exact real components instead of IEEE doubles; the
    operations are the componentwise ones the matrix engine relies on. */
module Vector3 {

  datatype Vec3 = Vec3(x: real, y: real, z: real)

  /** The default-constructed vector. */
  const Zero: Vec3 := Vec3(0.0, 0.0, 0.0)

  function Add(u: Vec3, v: Vec3): Vec3 {
    Vec3(u.x + v.x, u.y + v.y, u.z + v.z)
  }

  function Sub(u: Vec3, v: Vec3): Vec3 {
    Vec3(u.x - v.x, u.y - v.y, u.z - v.z)
  }

  /** `Vector3D * double`. */
  function Scale(v: Vec3, s: real): Vec3 {
    Vec3(v.x * s, v.y * s, v.z * s)
  }

  /** Names for the three components. */
  datatype Axis = AxisX | AxisY | AxisZ

  function Component(v: Vec3, a: Axis): real {
    match a
    case AxisX => v.x
    case AxisY => v.y
    case AxisZ => v.z
  }

  /** Every component of `u + v * s` is the component of `u` plus that of
      `v` times `s`. */
  lemma ComponentAddScale(u: Vec3, v: Vec3, s: real, a: Axis)
    ensures Component(Add(u, Scale(v, s)), a) == Component(u, a) + Component(v, a) * s
  {
  }

  lemma AddSubCancel(u: Vec3, v: Vec3)
    ensures Sub(Add(u, v), v) == u
  {
  }

  lemma ScaleOne(v: Vec3)
    ensures Scale(v, 1.0) == v
  {
  }

  lemma ScaleZero(v: Vec3)
    ensures Scale(v, 0.0) == Zero
  {
  }
}
