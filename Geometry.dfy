/**
 * Points and boxes over the reals. The engine's single- and double-precision
 * vectors (FVector, FVector3f, FVector2f) are all modelled by these.
 */
module Geometry {
  datatype Vec3 = Vec3(x: real, y: real, z: real)
  datatype Vec2 = Vec2(x: real, y: real)

  /** An axis-aligned box given by its lower and upper corners (FBox). */
  datatype Box = Box(min: Vec3, max: Vec3)

  function Add(p: Vec3, q: Vec3): Vec3 {
    Vec3(p.x + q.x, p.y + q.y, p.z + q.z)
  }

  function Sub(p: Vec3, q: Vec3): Vec3 {
    Vec3(p.x - q.x, p.y - q.y, p.z - q.z)
  }

  function Halve(p: Vec3): Vec3 {
    Vec3(p.x / 2.0, p.y / 2.0, p.z / 2.0)
  }

  /** FBox::GetSize */
  function Size(b: Box): Vec3 {
    Sub(b.max, b.min)
  }

  /** FBox::GetCenter */
  function Center(b: Box): Vec3 {
    Vec3((b.min.x + b.max.x) / 2.0, (b.min.y + b.max.y) / 2.0, (b.min.z + b.max.z) / 2.0)
  }
}
