/**
 * The shapes of rnote v0.4 (`rnotev0_4::shapes` and `rnotev0_4::curves`): a rectangle and an ellipse placed
 * by an affine transform, and the plain line and Bezier records.
 */
module ShapesV04 {
  import opened Vectors
  import opened Geometry
  import opened Transforms
  import opened Wrappers

  datatype Line = Line(start: Vec2, end: Vec2)

  datatype QuadBezier = QuadBezier(start: Vec2, cp: Vec2, end: Vec2)

  datatype CubicBezier = CubicBezier(start: Vec2, cp1: Vec2, cp2: Vec2, end: Vec2)

  /** `Line::default()` (derived): both ends at the origin. */
  function DefaultLine(): Line { Line(Zero(), Zero()) }

  datatype Rectangle = Rectangle(cuboid: Cuboid, transform: Transform)

  datatype Ellipse = Ellipse(radii: Vec2, transform: Transform)

  /** `Rectangle::default()`: zero half extents, identity transform. */
  function DefaultRectangle(): (r: Rectangle)
    ensures r.cuboid.half_extents == Zero()
    ensures forall p :: TransformPoint(r.transform, p) == p
  {
    Rectangle(Cuboid(Zero()), Transforms.Default())
  }

  /** `Ellipse::default()`: zero radii, identity transform. */
  function DefaultEllipse(): (e: Ellipse)
    ensures e.radii == Zero()
    ensures forall p :: TransformPoint(e.transform, p) == p
  {
    Ellipse(Zero(), Transforms.Default())
  }

  function Abs(r: real): real { if r < 0.0 then -r else r }

  /** A homogeneous 3-vector. */
  datatype Vec3 = Vec3(x: real, y: real, w: real)

  /**
   * `transform.into_inner().abs() * v.to_homogeneous()`: the componentwise absolute value of the 3x3 homogeneous
   * matrix `[a b tx; c d ty; 0 0 1]` times the vector `(v.x, v.y, 0)`.
   */
  function AbsHomogeneousTimes(f: Affine2, v: Vec2): Vec3 {
    var m := f.linear;
    Vec3(Abs(m.a) * v.x + Abs(m.b) * v.y + Abs(f.translation.x) * 0.0,
         Abs(m.c) * v.x + Abs(m.d) * v.y + Abs(f.translation.y) * 0.0,
         Abs(0.0) * v.x + Abs(0.0) * v.y + Abs(1.0) * 0.0)
  }

  /** `Vector2::from_homogeneous`: defined only for a homogeneous vector whose last component is zero. */
  function VectorFromHomogeneous(v: Vec3): Option<Vec2> {
    if v.w == 0.0 then Some(Vec2(v.x, v.y)) else None
  }

  /** `|M| * h` for the linear part `M` of `t`. */
  function AbsLinear(t: Transform, half: Vec2): Vec2 {
    Vec2(Abs(t.transform.linear.a) * half.x + Abs(t.transform.linear.b) * half.y,
         Abs(t.transform.linear.c) * half.x + Abs(t.transform.linear.d) * half.y)
  }

  /**
   * The common rule of both `global_aabb`s: the box around the image of the origin whose half extents are
   * `|M| * h`, `h` taken as a vector. The `unwrap` never fails, since the last component is always zero.
   */
  function TransformedAabb(t: Transform, half: Vec2): (b: AABB)
    ensures b.mins == Sub(TransformPoint(t, Zero()), AbsLinear(t, half))
    ensures b.maxs == Add(TransformPoint(t, Zero()), AbsLinear(t, half))
  {
    var center := TransformPoint(t, Zero());
    var h := VectorFromHomogeneous(AbsHomogeneousTimes(t.transform, half));
    FromHalfExtents(center, h.value)
  }

  /** The box is centered at the image of the origin, with half extents `|M| * h`. */
  lemma TransformedAabbCentered(t: Transform, half: Vec2)
    ensures Center(TransformedAabb(t, half)) == TransformPoint(t, Zero())
    ensures HalfExtents(TransformedAabb(t, half)) == AbsLinear(t, half)
  {
  }

  lemma AbsMulBound(m: real, p: real, h: real)
    requires -h <= p <= h
    ensures -(Abs(m) * h) <= m * p <= Abs(m) * h
  {
    if m >= 0.0 {
      MulMonotone(m, p, h);
      MulMonotone(m, -h, p);
    } else {
      MulMonotone(-m, p, h);
      MulMonotone(-m, -h, p);
    }
  }

  /** One row of the linear part, applied to a point of `[-h, h]`, stays within that row of `|M| * h`. */
  lemma RowBound(a: real, b: real, p: Vec2, half: Vec2)
    requires -half.x <= p.x <= half.x && -half.y <= p.y <= half.y
    ensures -(Abs(a) * half.x + Abs(b) * half.y) <= a * p.x + b * p.y <= Abs(a) * half.x + Abs(b) * half.y
  {
    AbsMulBound(a, p.x, half.x);
    AbsMulBound(b, p.y, half.y);
  }

  lemma AbsLinearNonnegative(t: Transform, half: Vec2)
    requires half.x >= 0.0 && half.y >= 0.0
    ensures AbsLinear(t, half).x >= 0.0 && AbsLinear(t, half).y >= 0.0
  {
    RowBound(t.transform.linear.a, t.transform.linear.b, Zero(), half);
    RowBound(t.transform.linear.c, t.transform.linear.d, Zero(), half);
  }

  /**
   * The box of `TransformedAabb` holds the image of every point of the local box `[-h, h]`, whatever the
   * transform: it is a bounding box of the transformed shape.
   */
  lemma TransformedAabbContains(t: Transform, half: Vec2, p: Vec2)
    requires -half.x <= p.x <= half.x && -half.y <= p.y <= half.y
    ensures ContainsPoint(TransformedAabb(t, half), TransformPoint(t, p))
  {
    AxisXContains(t, half, p);
    AxisYContains(t, half, p);
  }

  /** The x axis of `TransformedAabbContains`. */
  lemma AxisXContains(t: Transform, half: Vec2, p: Vec2)
    requires -half.x <= p.x <= half.x && -half.y <= p.y <= half.y
    ensures TransformedAabb(t, half).mins.x <= TransformPoint(t, p).x <= TransformedAabb(t, half).maxs.x
  {
    var m := t.transform.linear;
    AxisContains(m.a, m.b, t.transform.translation.x, p, half);
  }

  /** The y axis of `TransformedAabbContains`. */
  lemma AxisYContains(t: Transform, half: Vec2, p: Vec2)
    requires -half.x <= p.x <= half.x && -half.y <= p.y <= half.y
    ensures TransformedAabb(t, half).mins.y <= TransformPoint(t, p).y <= TransformedAabb(t, half).maxs.y
  {
    var m := t.transform.linear;
    AxisContains(m.c, m.d, t.transform.translation.y, p, half);
  }

  /** One axis of `TransformedAabbContains`, on plain numbers. */
  lemma AxisContains(a: real, b: real, offset: real, p: Vec2, half: Vec2)
    requires -half.x <= p.x <= half.x && -half.y <= p.y <= half.y
    ensures (a * 0.0 + b * 0.0) + offset - (Abs(a) * half.x + Abs(b) * half.y) <= (a * p.x + b * p.y) + offset
    ensures (a * p.x + b * p.y) + offset <= (a * 0.0 + b * 0.0) + offset + (Abs(a) * half.x + Abs(b) * half.y)
  {
    RowBound(a, b, p, half);
  }

  /** Non-negative half extents give a valid box; the translation never enlarges it. */
  lemma TransformedAabbValid(t: Transform, half: Vec2)
    requires half.x >= 0.0 && half.y >= 0.0
    ensures Valid(TransformedAabb(t, half))
    ensures Extents(TransformedAabb(t, half))
         == Extents(TransformedAabb(Transform(Affine2(t.transform.linear, Zero())), half))
  {
    AbsLinearNonnegative(t, half);
    var u := Transform(Affine2(t.transform.linear, Zero()));
    assert AbsLinear(u, half) == AbsLinear(t, half);
  }

  /** `Rectangle::global_aabb`: centered at the image of the origin, valid for non-negative half extents. */
  function RectangleGlobalAabb(r: Rectangle): (b: AABB)
    ensures Center(b) == TransformPoint(r.transform, Zero())
    ensures r.cuboid.half_extents.x >= 0.0 && r.cuboid.half_extents.y >= 0.0 ==> Valid(b)
  {
    if r.cuboid.half_extents.x >= 0.0 && r.cuboid.half_extents.y >= 0.0 then
      TransformedAabbValid(r.transform, r.cuboid.half_extents);
      TransformedAabb(r.transform, r.cuboid.half_extents)
    else
      TransformedAabb(r.transform, r.cuboid.half_extents)
  }

  /** `Ellipse::global_aabb`: the same rule, with the radii as half extents. */
  function EllipseGlobalAabb(e: Ellipse): (b: AABB)
    ensures Center(b) == TransformPoint(e.transform, Zero())
    ensures e.radii.x >= 0.0 && e.radii.y >= 0.0 ==> Valid(b)
  {
    if e.radii.x >= 0.0 && e.radii.y >= 0.0 then
      TransformedAabbValid(e.transform, e.radii);
      TransformedAabb(e.transform, e.radii)
    else
      TransformedAabb(e.transform, e.radii)
  }

  /** The global box of a rectangle holds its four transformed corners, hence its outline. */
  lemma RectangleGlobalAabbHoldsCorners(r: Rectangle, sx: real, sy: real)
    requires r.cuboid.half_extents.x >= 0.0 && r.cuboid.half_extents.y >= 0.0
    requires (sx == 1.0 || sx == -1.0) && (sy == 1.0 || sy == -1.0)
    ensures ContainsPoint(RectangleGlobalAabb(r),
                          TransformPoint(r.transform, Vec2(sx * r.cuboid.half_extents.x, sy * r.cuboid.half_extents.y)))
  {
    TransformedAabbContains(r.transform, r.cuboid.half_extents,
                            Vec2(sx * r.cuboid.half_extents.x, sy * r.cuboid.half_extents.y));
  }
}
