/**
 * The strokes of rnote v0.5 (`rnotev0_5::stroke`, `shapestroke`, `vectorimage`): the shape stroke, the vector
 * image, and the `Stroke` sum with its conversion from the v0.4 `StrokeStyle`, in which a bitmap that cannot be
 * decoded becomes `None`.
 */
module StrokesV05 {
  import opened Wrappers
  import opened Styles
  import StrokesV04
  import StrokesStateV04
  import ShapesV05
  import BrushStrokesV05
  import BitmapImagesV05
  import opened Vectors
  import Geometry

  /** The collaborators the stroke conversions call but this model does not define. */
  datatype Libs = Libs(options: OptionsLib, images: BitmapImagesV05.ImageLib)

  // Shape stroke

  datatype ShapeStroke = ShapeStroke(shape: ShapesV05.Shape, style: Style)

  /** `ShapeStroke::new`: the shape and the style, stored unchanged. */
  function NewShapeStroke(shape: ShapesV05.Shape, style: Style): (s: ShapeStroke)
    ensures s.shape == shape && s.style == style
  {
    ShapeStroke.ShapeStroke(shape, style)
  }

  /** The derived `ShapeStroke::default()`: the default shape in the default style. */
  function DefaultShapeStroke(lib: OptionsLib): (s: ShapeStroke)
    ensures s.shape == ShapesV05.DefaultShape() && s.style == DefaultStyle(lib)
  {
    ShapeStroke.ShapeStroke(ShapesV05.DefaultShape(), DefaultStyle(lib))
  }

  /**
   * `From<v0.4 ShapeStroke>`: a rough draw style becomes `Style::Rough`, a smooth one `Style::Smooth`, never
   * `Textured`; the shape goes through `Shape::from`.
   */
  function FromV04ShapeStroke(ss: StrokesV04.ShapeStroke, lib: OptionsLib): (s: ShapeStroke)
    ensures !s.style.Textured?
    ensures s.style.Rough? <==> ss.drawstyle.Rough?
    ensures ss.drawstyle.Rough? ==> s.style.rough == lib.roughFromV04(ss.drawstyle.rough_options)
    ensures ss.drawstyle.Smooth? ==> s.style.smooth == lib.smoothFromV04(ss.drawstyle.options)
    ensures ShapesV05.ToV04Shape(s.shape) == Some(ss.shape)
  {
    var style := match ss.drawstyle
      case Rough(options) => Rough(lib.roughFromV04(options))
      case Smooth(options) => Smooth(lib.smoothFromV04(options));
    ShapesV05.FromV04ShapeRoundTrip(ss.shape);
    ShapeStroke.ShapeStroke(ShapesV05.FromV04Shape(ss.shape), style)
  }

  /** The v0.4 `seed` and `bounds` are not carried over: strokes differing only in them convert alike. */
  lemma ShapeStrokeDropsSeedAndBounds(ss: StrokesV04.ShapeStroke, seed: Option<nat>, bounds: Geometry.AABB,
                                      lib: OptionsLib)
    ensures FromV04ShapeStroke(ss.(seed := seed, bounds := bounds), lib) == FromV04ShapeStroke(ss, lib)
  {
  }

  // Vector image

  datatype VectorImage = VectorImage(svg_data: string, intrinsic_size: Vec2, rectangle: ShapesV05.Rectangle)

  /** `VectorImage::IMPORT_OFFSET_DEFAULT` */
  const VECTORIMAGE_IMPORT_OFFSET_DEFAULT: Vec2 := Vec2(32.0, 32.0)

  /** `VectorImage::default()`: no svg, zero size, a default rectangle. */
  function DefaultVectorImage(): (v: VectorImage)
    ensures v.svg_data == "" && v.intrinsic_size == Zero() && v.rectangle == ShapesV05.DefaultRectangle()
  {
    VectorImage.VectorImage("", Zero(), ShapesV05.DefaultRectangle())
  }

  /** `From<v0.4 VectorImage>`: the svg data and size copied, the rectangle converted, the bounds dropped. */
  function FromV04VectorImage(vi: StrokesV04.VectorImage): (v: VectorImage)
    ensures v.svg_data == vi.svg_data && v.intrinsic_size == vi.intrinsic_size
    ensures v.rectangle == ShapesV05.FromV04Rectangle(vi.rectangle)
  {
    VectorImage.VectorImage(vi.svg_data, vi.intrinsic_size, ShapesV05.FromV04Rectangle(vi.rectangle))
  }

  /** Dropping the bounds is all the conversion loses: it is injective up to them. */
  lemma VectorImageLosesOnlyBounds(a: StrokesV04.VectorImage, b: StrokesV04.VectorImage)
    ensures FromV04VectorImage(a) == FromV04VectorImage(b) <==> a.(bounds := b.bounds) == b
  {
    if FromV04VectorImage(a) == FromV04VectorImage(b) {
      assert a.rectangle == b.rectangle by {
        assert ShapesV05.FromV04Rectangle(a.rectangle) == ShapesV05.FromV04Rectangle(b.rectangle);
      }
    }
  }

  /** The default v0.4 vector image converts to the default v0.5 vector image. */
  lemma VectorImageDefaultsCorrespond()
    ensures FromV04VectorImage(StrokesV04.DefaultVectorImage()) == DefaultVectorImage()
  {
    ShapesV05.DefaultsCorrespond();
  }

  // Stroke

  datatype Stroke =
    | BrushStroke(brushstroke: BrushStrokesV05.BrushStroke)
    | ShapeStroke(shapestroke: ShapeStroke)
    | VectorImage(vectorimage: VectorImage)
    | BitmapImage(bitmapimage: BitmapImagesV05.BitmapImage)

  /** `Stroke::default()`: a default brush stroke. */
  function DefaultStroke(lib: OptionsLib): (s: Stroke)
    ensures s.BrushStroke? && s.brushstroke == BrushStrokesV05.DefaultBrushStroke(lib)
  {
    Stroke.BrushStroke(BrushStrokesV05.DefaultBrushStroke(lib))
  }

  /** A v0.4 stroke the converter can take: a brush stroke must have an element, or its conversion panics. */
  predicate Convertible(s: StrokesStateV04.StrokeStyle) {
    s.BrushStroke? ==> |s.brushstroke.elements| > 0
  }

  /**
   * `From<StrokeStyle> for Option<Stroke>`: a brush stroke, a shape stroke and a vector image always convert; a
   * bitmap image converts exactly when its `try_into` succeeds, and is otherwise reported and becomes `None`.
   */
  function StrokeFrom(s: StrokesStateV04.StrokeStyle, libs: Libs): (r: Option<Stroke>)
    requires Convertible(s)
    ensures r.None? <==> s.BitmapImage? && BitmapImagesV05.TryFromV04(s.bitmapimage, libs.images).Err?
    ensures r.Some? ==> (r.value.BrushStroke? <==> s.BrushStroke?) && (r.value.ShapeStroke? <==> s.ShapeStroke?)
    ensures r.Some? ==> (r.value.VectorImage? <==> s.VectorImage?) && (r.value.BitmapImage? <==> s.BitmapImage?)
    ensures s.BrushStroke? ==> r == Some(Stroke.BrushStroke(BrushStrokesV05.ConvertedBrushStroke(s.brushstroke, libs.options)))
    ensures s.ShapeStroke? ==> r == Some(Stroke.ShapeStroke(FromV04ShapeStroke(s.shapestroke, libs.options)))
    ensures s.VectorImage? ==> r == Some(Stroke.VectorImage(FromV04VectorImage(s.vectorimage)))
    ensures s.BitmapImage? && r.Some? ==> r.value.bitmapimage == BitmapImagesV05.TryFromV04(s.bitmapimage, libs.images).value
  {
    match s
    case BrushStroke(b) => Some(Stroke.BrushStroke(BrushStrokesV05.ConvertedBrushStroke(b, libs.options)))
    case ShapeStroke(b) => Some(Stroke.ShapeStroke(FromV04ShapeStroke(b, libs.options)))
    case VectorImage(b) => Some(Stroke.VectorImage(FromV04VectorImage(b)))
    case BitmapImage(b) =>
      match BitmapImagesV05.TryFromV04(b, libs.images)
      case Ok(val) => Some(Stroke.BitmapImage(val))
      case Err(_) => None
  }

  /** A bitmap with undecodable base64 text is never an error of the whole conversion: it is simply `None`. */
  lemma UndecodableBitmapIsDropped(b: StrokesV04.BitmapImage, libs: Libs)
    requires libs.images.base64Decode(b.data_base64).Err?
    ensures StrokeFrom(StrokesStateV04.BitmapImage(b), libs) == None
  {
  }

  /** The default v0.4 stroke is an empty brush stroke, which the converter cannot take. */
  lemma DefaultV04StrokeNotConvertible()
    ensures !Convertible(StrokesStateV04.DefaultStrokeStyle())
  {
  }
}
