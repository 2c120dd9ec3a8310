/**
 * The stroke records of rnote v0.4 (`rnotev0_4::strokes` and its sub-modules): style options, pen input
 * elements, and the brush, shape, vector image and bitmap image strokes.
 */
module StrokesV04 {
  import opened Vectors
  import opened Wrappers
  import opened Geometry
  import opened RnoteV04
  import ShapesV04

  // ---------------------------------------------------------------------------------------------
  // Style options

  /** `SmoothOptions`; the `u64` seed is a natural number. */
  datatype SmoothOptions = SmoothOptions(seed: Option<nat>, width: real, stroke_color: Option<Color>,
                                         fill_color: Option<Color>)

  const SMOOTH_WIDTH_DEFAULT: real := 1.0
  const SMOOTH_WIDTH_MIN: real := 0.1
  const SMOOTH_WIDTH_MAX: real := 1000.0

  /** `SmoothOptions::default()` */
  function DefaultSmoothOptions(): (o: SmoothOptions)
    ensures o.seed == None && o.fill_color == None
    ensures o.width == SMOOTH_WIDTH_DEFAULT && o.stroke_color == Some(BLACK)
    ensures SMOOTH_WIDTH_MIN <= o.width <= SMOOTH_WIDTH_MAX
  {
    SmoothOptions(None, SMOOTH_WIDTH_DEFAULT, Some(Color(0.0, 0.0, 0.0, 1.0)), None)
  }

  /**
   * The options of a rough shape. Their module (`rnotev0_4::roughoptions`) is not part of this model, so only
   * the fields every style carries are kept; the conversion to v0.5 treats them as opaque.
   */
  datatype RoughOptions = RoughOptions(seed: Option<nat>, width: real, stroke_color: Option<Color>,
                                       fill_color: Option<Color>)

  datatype TexturedDotsDistribution = Uniform | Normal | Exponential | ReverseExponential

  function DefaultTexturedDotsDistribution(): (d: TexturedDotsDistribution)
    ensures d == Normal
  {
    Normal
  }

  datatype TexturedOptions = TexturedOptions(seed: Option<nat>, width: real, stroke_color: Option<Color>,
                                             density: real, radii: Vec2, distribution: TexturedDotsDistribution)

  const TEXTURED_WIDTH_DEFAULT: real := 1.0
  const TEXTURED_DENSITY_DEFAULT: real := 5.0
  const TEXTURED_RADII_DEFAULT: Vec2 := Vec2(2.0, 0.3)

  /** `TexturedOptions::default()` */
  function DefaultTexturedOptions(): (o: TexturedOptions)
    ensures o.seed == None && o.width == TEXTURED_WIDTH_DEFAULT && o.density == TEXTURED_DENSITY_DEFAULT
    ensures o.stroke_color == Some(BLACK) && o.radii == TEXTURED_RADII_DEFAULT && o.distribution == Normal
  {
    TexturedOptions(None, TEXTURED_WIDTH_DEFAULT, Some(Color(0.0, 0.0, 0.0, 1.0)), TEXTURED_DENSITY_DEFAULT,
                    TEXTURED_RADII_DEFAULT, DefaultTexturedDotsDistribution())
  }

  // ---------------------------------------------------------------------------------------------
  // Pen input

  datatype InputData = InputData(pos: Vec2, pressure: real)

  const PRESSURE_DEFAULT: real := 0.5

  /** `InputData::default()`: at the origin with the default pressure. */
  function DefaultInputData(): (d: InputData)
    ensures d.pos == Zero() && d.pressure == PRESSURE_DEFAULT
  {
    InputData(Vec2(0.0, 0.0), PRESSURE_DEFAULT)
  }

  /** The transparent timestamp string of an element. */
  datatype Timestamp = Timestamp(text: string)

  datatype Element = Element(inputdata: InputData, timestamp: Option<Timestamp>)

  function DefaultElement(): (e: Element)
    ensures e.inputdata == DefaultInputData() && e.timestamp == None
  {
    Element(DefaultInputData(), None)
  }

  // ---------------------------------------------------------------------------------------------
  // Brush and brush strokes

  datatype BrushStyle = MarkerBrush | SolidBrush | TexturedBrush

  datatype Brush = Brush(style: BrushStyle, smooth_options: SmoothOptions, textured_options: TexturedOptions)

  /** `Brush::default()`: the solid style with default options. */
  function DefaultBrush(): (b: Brush)
    ensures b.style == SolidBrush
    ensures b.smooth_options == DefaultSmoothOptions() && b.textured_options == DefaultTexturedOptions()
  {
    Brush(SolidBrush, DefaultSmoothOptions(), DefaultTexturedOptions())
  }

  datatype BrushStrokeStyle =
    | Marker(options: SmoothOptions)
    | Solid(options: SmoothOptions)
    | Textured(textured_options: TexturedOptions)

  datatype BrushStroke = BrushStroke(elements: seq<Element>, style: BrushStrokeStyle, bounds: AABB)

  const BRUSHSTROKE_HITBOX_DEFAULT: real := 10.0

  /** `BrushStroke::default()`: no elements, a solid style and a zero box. */
  function DefaultBrushStroke(): (b: BrushStroke)
    ensures b.elements == [] && b.style == Solid(DefaultSmoothOptions()) && b.bounds == NewZero()
  {
    BrushStroke([], Solid(DefaultSmoothOptions()), NewZero())
  }

  // ---------------------------------------------------------------------------------------------
  // Shape strokes

  datatype Shape =
    | Line(line: ShapesV04.Line)
    | Rectangle(rectangle: ShapesV04.Rectangle)
    | Ellipse(ellipse: ShapesV04.Ellipse)

  datatype ShapeDrawStyle =
    | Smooth(options: SmoothOptions)
    | Rough(rough_options: RoughOptions)

  datatype ShapeStroke = ShapeStroke(seed: Option<nat>, shape: Shape, drawstyle: ShapeDrawStyle, bounds: AABB)

  /** `ShapeStroke::default()`: a default rectangle, smooth default style, no seed, zero box. */
  function DefaultShapeStroke(): (s: ShapeStroke)
    ensures s.seed == None && s.shape == Rectangle(ShapesV04.DefaultRectangle())
    ensures s.drawstyle == Smooth(DefaultSmoothOptions()) && s.bounds == NewZero()
  {
    ShapeStroke(None, Rectangle(ShapesV04.DefaultRectangle()), Smooth(DefaultSmoothOptions()), NewZero())
  }

  // ---------------------------------------------------------------------------------------------
  // Images

  datatype VectorImage = VectorImage(svg_data: string, intrinsic_size: Vec2, rectangle: ShapesV04.Rectangle,
                                     bounds: AABB)

  /** `VectorImage::default()`: no svg, zero size, a default rectangle, zero box. */
  function DefaultVectorImage(): (v: VectorImage)
    ensures v.svg_data == "" && v.intrinsic_size == Zero()
    ensures v.rectangle == ShapesV04.DefaultRectangle() && v.bounds == NewZero()
  {
    VectorImage("", Zero(), ShapesV04.DefaultRectangle(), NewZero())
  }

  datatype BitmapImageFormat = Png | Jpeg

  /** `BitmapImageFormat::as_mime_type` */
  function AsMimeType(f: BitmapImageFormat): (m: string)
    ensures f == Png ==> m == "image/png"
    ensures f == Jpeg ==> m == "image/jpeg"
  {
    match f
    case Png => "image/png"
    case Jpeg => "image/jpeg"
  }

  /** The two formats have distinct MIME types, both of the `image/` family. */
  lemma MimeTypesDistinct(f: BitmapImageFormat, g: BitmapImageFormat)
    ensures AsMimeType(f) == AsMimeType(g) <==> f == g
    ensures AsMimeType(f)[..6] == "image/"
  {
    if f != g {
      assert AsMimeType(Png)[6] != AsMimeType(Jpeg)[6];
    }
  }

  /** The v0.4 bitmap image: base64 text of the encoded file, its format, and its placement. */
  datatype BitmapImage = BitmapImage(data_base64: string, format: BitmapImageFormat, intrinsic_size: Vec2,
                                     rectangle: ShapesV04.Rectangle, bounds: AABB)

  /** `BitmapImage::default()`: an empty PNG of size (0, 0) with a default rectangle and a zero box. */
  function DefaultBitmapImage(): (b: BitmapImage)
    ensures b.data_base64 == "" && b.format == Png && b.intrinsic_size == Zero()
    ensures b.rectangle == ShapesV04.DefaultRectangle() && b.bounds == NewZero()
  {
    BitmapImage("", Png, Vec2(0.0, 0.0), ShapesV04.DefaultRectangle(), NewZero())
  }
}
