/**
 * The shapes of rnote v0.5 (`rnotev0_5::shapes`): the rectangle and the ellipse, which keep the v0.4 transform
 * type, and the `Shape` container with its conversion from the v0.4 shape of a shape stroke.
 */
module ShapesV05 {
  import opened Vectors
  import opened Geometry
  import opened Transforms
  import opened Wrappers
  import Curves
  import PenPaths
  import ShapesV04
  import StrokesV04

  // Rectangle

  datatype Rectangle = Rectangle(cuboid: Cuboid, transform: Transform)

  /** `Rectangle::default()`: zero half extents, identity transform. */
  function DefaultRectangle(): (r: Rectangle)
    ensures r.cuboid.half_extents == Zero()
    ensures forall p :: TransformPoint(r.transform, p) == p
  {
    Rectangle.Rectangle(Cuboid(Zero()), Transforms.Default())
  }

  /**
   * `Rectangle::from_p2d_aabb`: the half extents of the bounds, placed by an isometry with rotation angle zero
   * (the identity linear map) that translates by the bounds' center.
   */
  function FromP2dAabb(bounds: AABB): (r: Rectangle)
    ensures r.cuboid.half_extents == HalfExtents(bounds)
    ensures forall p :: TransformPoint(r.transform, p) == Add(p, Center(bounds))
  {
    Rectangle.Rectangle(Cuboid(HalfExtents(bounds)), NewWIsometry(Isometry(MatIdentity(), Center(bounds))))
  }

  /** The image under the rectangle's transform of the local corner `(sx * hx, sy * hy)`. */
  function Corner(r: Rectangle, sx: real, sy: real): Vec2 {
    TransformPoint(r.transform, Vec2(sx * r.cuboid.half_extents.x, sy * r.cuboid.half_extents.y))
  }

  /** A closed polygon: every line ends where the next one starts, and the last one ends where the first starts. */
  predicate ClosedLoop(lines: seq<Curves.Line>) {
    |lines| > 0 && Curves.Chained(lines) && lines[|lines| - 1].end == lines[0].start
  }

  /**
   * `Rectangle::outline_lines`: the four sides, from the upper left corner down to the lower left, across to the
   * lower right, up to the upper right and back to the upper left.
   */
  function OutlineLines(r: Rectangle): (lines: seq<Curves.Line>)
    ensures |lines| == 4 && ClosedLoop(lines)
    ensures lines[0].start == Corner(r, -1.0, -1.0)
    ensures lines[1].start == Corner(r, -1.0, 1.0)
    ensures lines[2].start == Corner(r, 1.0, 1.0)
    ensures lines[3].start == Corner(r, 1.0, -1.0)
  {
    var upperLeft := TransformPoint(r.transform, Vec2(-r.cuboid.half_extents.x, -r.cuboid.half_extents.y));
    var upperRight := TransformPoint(r.transform, Vec2(r.cuboid.half_extents.x, -r.cuboid.half_extents.y));
    var lowerLeft := TransformPoint(r.transform, Vec2(-r.cuboid.half_extents.x, r.cuboid.half_extents.y));
    var lowerRight := TransformPoint(r.transform, Vec2(r.cuboid.half_extents.x, r.cuboid.half_extents.y));
    [Curves.Line(upperLeft, lowerLeft), Curves.Line(lowerLeft, lowerRight),
     Curves.Line(lowerRight, upperRight), Curves.Line(upperRight, upperLeft)]
  }

  /** The outline of a rectangle made from a box runs through the box's four corners. */
  lemma FromP2dAabbOutline(bounds: AABB)
    ensures OutlineLines(FromP2dAabb(bounds))[0].start == bounds.mins
    ensures OutlineLines(FromP2dAabb(bounds))[1].start == Vec2(bounds.mins.x, bounds.maxs.y)
    ensures OutlineLines(FromP2dAabb(bounds))[2].start == bounds.maxs
    ensures OutlineLines(FromP2dAabb(bounds))[3].start == Vec2(bounds.maxs.x, bounds.mins.y)
  {
    var r := FromP2dAabb(bounds);
    var h := HalfExtents(bounds);
    assert Corner(r, -1.0, -1.0) == Add(Vec2(-1.0 * h.x, -1.0 * h.y), Center(bounds));
    assert Corner(r, -1.0, 1.0) == Add(Vec2(-1.0 * h.x, 1.0 * h.y), Center(bounds));
    assert Corner(r, 1.0, 1.0) == Add(Vec2(1.0 * h.x, 1.0 * h.y), Center(bounds));
    assert Corner(r, 1.0, -1.0) == Add(Vec2(1.0 * h.x, -1.0 * h.y), Center(bounds));
  }

  /** `From<v0.4 Rectangle>`: the cuboid and the transform are carried over unchanged. */
  function FromV04Rectangle(rect: ShapesV04.Rectangle): (r: Rectangle)
    ensures r.cuboid == rect.cuboid && r.transform == rect.transform
  {
    Rectangle.Rectangle(rect.cuboid, rect.transform)
  }

  /**
   * The outline of a converted rectangle stays inside the global box the v0.4 rectangle reported, when its half
   * extents are non-negative: the conversion does not move the shape.
   */
  lemma FromV04RectangleOutlineInGlobalAabb(rect: ShapesV04.Rectangle, i: int)
    requires rect.cuboid.half_extents.x >= 0.0 && rect.cuboid.half_extents.y >= 0.0
    requires 0 <= i < 4
    ensures ContainsPoint(ShapesV04.RectangleGlobalAabb(rect), OutlineLines(FromV04Rectangle(rect))[i].start)
    ensures ContainsPoint(ShapesV04.RectangleGlobalAabb(rect), OutlineLines(FromV04Rectangle(rect))[i].end)
  {
    ShapesV04.RectangleGlobalAabbHoldsCorners(rect, -1.0, -1.0);
    ShapesV04.RectangleGlobalAabbHoldsCorners(rect, -1.0, 1.0);
    ShapesV04.RectangleGlobalAabbHoldsCorners(rect, 1.0, 1.0);
    ShapesV04.RectangleGlobalAabbHoldsCorners(rect, 1.0, -1.0);
  }

  // Ellipse

  datatype Ellipse = Ellipse(radii: Vec2, transform: Transform)

  /** `Ellipse::default()`: zero radii, identity transform. */
  function DefaultEllipse(): (e: Ellipse)
    ensures e.radii == Zero()
    ensures forall p :: TransformPoint(e.transform, p) == p
  {
    Ellipse.Ellipse(Zero(), Transforms.Default())
  }

  /** `From<v0.4 Ellipse>`: the radii and the transform (the same type in both versions) are carried over. */
  function FromV04Ellipse(ellipse: ShapesV04.Ellipse): (e: Ellipse)
    ensures e.radii == ellipse.radii && e.transform == ellipse.transform
  {
    Ellipse.Ellipse(ellipse.radii, ellipse.transform)
  }

  /** The default ellipse of v0.4 converts to the default ellipse of v0.5, and likewise for the rectangle. */
  lemma DefaultsCorrespond()
    ensures FromV04Ellipse(ShapesV04.DefaultEllipse()) == DefaultEllipse()
    ensures FromV04Rectangle(ShapesV04.DefaultRectangle()) == DefaultRectangle()
  {
  }

  // Shape

  /** The shape container of v0.5; the first three variants are the ones v0.4 knew. */
  datatype Shape =
    | Line(line: Curves.Line)
    | Rectangle(rectangle: Rectangle)
    | Ellipse(ellipse: Ellipse)
    | QuadraticBezier(quadbez: Curves.QuadraticBezier)
    | CubicBezier(cubbez: Curves.CubicBezier)
    | Segment(segment: PenPaths.Segment)

  /** `Shape::default()`: a default line, both ends at the origin. */
  function DefaultShape(): (s: Shape)
    ensures s.Line? && s.line.start == Zero() && s.line.end == Zero()
  {
    Shape.Line(Curves.DefaultLine())
  }

  /** `From<v0.4 Shape>`: each variant becomes the same-named variant, its payload converted by its own `From`. */
  function FromV04Shape(shape: StrokesV04.Shape): (s: Shape)
    ensures shape.Line? <==> s.Line?
    ensures shape.Rectangle? <==> s.Rectangle?
    ensures shape.Ellipse? <==> s.Ellipse?
    ensures !s.QuadraticBezier? && !s.CubicBezier? && !s.Segment?
  {
    match shape
    case Line(line) => Shape.Line(Curves.FromV04Line(line))
    case Rectangle(rect) => Shape.Rectangle(FromV04Rectangle(rect))
    case Ellipse(ellipse) => Shape.Ellipse(FromV04Ellipse(ellipse))
  }

  /**
   * The way back for the shapes v0.4 can hold, and `None` for the three variants it cannot. It shows the conversion
   * loses nothing.
   */
  function ToV04Shape(s: Shape): Option<StrokesV04.Shape> {
    match s
    case Line(line) => Some(StrokesV04.Shape.Line(ShapesV04.Line(line.start, line.end)))
    case Rectangle(rect) => Some(StrokesV04.Shape.Rectangle(ShapesV04.Rectangle(rect.cuboid, rect.transform)))
    case Ellipse(ellipse) => Some(StrokesV04.Shape.Ellipse(ShapesV04.Ellipse(ellipse.radii, ellipse.transform)))
    case _ => None
  }

  /** Round trip: converting a v0.4 shape and reading it back gives the original shape. */
  lemma FromV04ShapeRoundTrip(shape: StrokesV04.Shape)
    ensures ToV04Shape(FromV04Shape(shape)) == Some(shape)
  {
    match shape
    case Line(line) =>
      assert Curves.FromV04Line(line).start == line.start && Curves.FromV04Line(line).end == line.end;
    case Rectangle(rect) =>
    case Ellipse(ellipse) =>
  }

  /** Hence two different v0.4 shapes never convert to the same v0.5 shape. */
  lemma FromV04ShapeInjective(a: StrokesV04.Shape, b: StrokesV04.Shape)
    ensures FromV04Shape(a) == FromV04Shape(b) ==> a == b
  {
    FromV04ShapeRoundTrip(a);
    FromV04ShapeRoundTrip(b);
  }
}
