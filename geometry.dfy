/** Points of the plane, standing in for the two-component vector type of the
    renderer's matrix library: only addition and scalar multiplication are used. */
module Geometry {

  datatype R2 = R2(x: real, y: real)

  function Add(p: R2, q: R2): R2
  {
    R2(p.x + q.x, p.y + q.y)
  }

  function Scale(k: real, p: R2): R2
  {
    R2(k * p.x, k * p.y)
  }
}
