/**
 * Two-component vectors (`nalgebra::Vector2<f64>` and `Point2<f64>`), over the reals.
 * Points and vectors share one type, as the source converts between them freely.
 */
module Vectors {

  datatype Vec2 = Vec2(x: real, y: real)

  function Zero(): Vec2 { Vec2(0.0, 0.0) }

  function Add(a: Vec2, b: Vec2): Vec2 { Vec2(a.x + b.x, a.y + b.y) }

  function Sub(a: Vec2, b: Vec2): Vec2 { Vec2(a.x - b.x, a.y - b.y) }

  function Neg(a: Vec2): Vec2 { Vec2(-a.x, -a.y) }

  /** `k * v` */
  function Scale(v: Vec2, k: real): Vec2 { Vec2(k * v.x, k * v.y) }

  /** The scalar `lerp`: `a * (1 - t) + b * t`. */
  function LerpScalar(a: real, b: real, t: real): real { a * (1.0 - t) + b * t }

  /** `a.lerp(&b, t)`, which nalgebra computes componentwise as `a * (1 - t) + b * t`. */
  function Lerp(a: Vec2, b: Vec2, t: real): Vec2 {
    Vec2(LerpScalar(a.x, b.x, t), LerpScalar(a.y, b.y, t))
  }

  /** Componentwise `<=`. */
  predicate Le(a: Vec2, b: Vec2) { a.x <= b.x && a.y <= b.y }
}
