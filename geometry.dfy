/**
 * Plain values shared by the whole model: the optional value, screen
 * points, scene-space vectors, 4x4 world transforms, and Swift's
 * truncating conversion from a floating-point value to `Int`.
 */
module Geometry {

  datatype Option<T> = None | Some(value: T)

  /** A screen coordinate (CGPoint); origin top-left. */
  datatype ScreenPoint = ScreenPoint(x: real, y: real)

  /** A size on screen (CGSize). */
  datatype Size = Size(width: real, height: real)

  /** A scene-space position in metres (SCNVector3). */
  datatype Vector3 = Vector3(x: real, y: real, z: real)

  /**
   * The whole number of inches between the scene origin and a position:
   * `Int(sqrt(x*x + y*y + z*z) * 39.3701)` in the source. The
   * floating-point computation is not modelled; every operation that
   * needs a distance is given this function.
   */
  type Metric = Vector3 -> nat

  /** Component-wise difference, the offset from `b` to `a`. */
  function Minus(a: Vector3, b: Vector3): Vector3 {
    Vector3(a.x - b.x, a.y - b.y, a.z - b.z)
  }

  /** A 4x4 transform in SceneKit's row-major naming (SCNMatrix4). */
  datatype Transform = Transform(
    m11: real, m12: real, m13: real, m14: real,
    m21: real, m22: real, m23: real, m24: real,
    m31: real, m32: real, m33: real, m34: real,
    m41: real, m42: real, m43: real, m44: real)

  /** The translation part of a transform: `SCNVector3Make(m41, m42, m43)`. */
  function Translation(t: Transform): Vector3 {
    Vector3(t.m41, t.m42, t.m43)
  }

  /**
   * Swift's `Int(_:)` on a floating-point value: rounds toward zero.
   * The result is the integer of largest magnitude not exceeding `r`'s.
   */
  function Truncate(r: real): (i: int)
    ensures r >= 0.0 ==> 0 <= i && i as real <= r < i as real + 1.0
    ensures r < 0.0 ==> i <= 0 && i as real - 1.0 < r <= i as real
  {
    if r >= 0.0 then r.Floor else -((-r).Floor)
  }

  function Abs(i: int): nat {
    if i < 0 then -i else i
  }
}
