/**
 * The stroke styles of rnote v0.5 (`rnotev0_5::stroke::style` and its sub-modules) and their conversions from
 * the v0.4 style options.
 */
module Styles {
  import opened Vectors
  import opened Wrappers
  import opened RnoteV04
  import StrokesV04

  /**
   * The options of a smooth stroke. Their module (`rnotev0_5::stroke::style::smoothoptions`) is not part of this
   * model, so only the fields every style carries are kept.
   */
  datatype SmoothOptions = SmoothOptions(seed: Option<nat>, stroke_width: real, stroke_color: Option<Color>,
                                         fill_color: Option<Color>)

  /** The options of a rough shape; their module (`roughoptions`) is not part of this model either. */
  datatype RoughOptions = RoughOptions(seed: Option<nat>, stroke_width: real, stroke_color: Option<Color>,
                                       fill_color: Option<Color>)

  /**
   * What the two modules that are not part of this model provide: `SmoothOptions::default()` and the `From`
   * conversions of smooth and rough options, taken as given total maps.
   */
  datatype OptionsLib = OptionsLib(smoothDefault: SmoothOptions,
                                   smoothFromV04: StrokesV04.SmoothOptions -> SmoothOptions,
                                   roughFromV04: StrokesV04.RoughOptions -> RoughOptions)

  // Textured dots distribution

  datatype TexturedDotsDistribution = Uniform | Normal | Exponential | ReverseExponential

  /** `TexturedDotsDistribution::default()` */
  function DefaultDistribution(): (d: TexturedDotsDistribution)
    ensures d == Normal
  {
    Normal
  }

  /** `From<v0.4 TexturedDotsDistribution>`: each variant becomes the same-named variant. */
  function FromV04Distribution(dist: StrokesV04.TexturedDotsDistribution): TexturedDotsDistribution {
    match dist
    case Uniform => Uniform
    case Normal => Normal
    case Exponential => Exponential
    case ReverseExponential => ReverseExponential
  }

  /** The reverse variant mapping, used to show that the conversion is a bijection. */
  function ToV04Distribution(dist: TexturedDotsDistribution): StrokesV04.TexturedDotsDistribution {
    match dist
    case Uniform => StrokesV04.Uniform
    case Normal => StrokesV04.Normal
    case Exponential => StrokesV04.Exponential
    case ReverseExponential => StrokesV04.ReverseExponential
  }

  /** The distribution conversion is a bijection on the four variants: it has a two-sided inverse. */
  lemma DistributionBijection(old4: StrokesV04.TexturedDotsDistribution, new5: TexturedDotsDistribution)
    ensures ToV04Distribution(FromV04Distribution(old4)) == old4
    ensures FromV04Distribution(ToV04Distribution(new5)) == new5
    ensures FromV04Distribution(old4) == new5 <==> old4 == ToV04Distribution(new5)
  {
  }

  /** The default v0.4 distribution converts to the default v0.5 distribution. */
  lemma DistributionDefaultsCorrespond()
    ensures FromV04Distribution(StrokesV04.DefaultTexturedDotsDistribution()) == DefaultDistribution()
  {
  }

  // Textured options

  datatype TexturedOptions = TexturedOptions(seed: Option<nat>, stroke_width: real, stroke_color: Option<Color>,
                                             density: real, radii: Vec2, distribution: TexturedDotsDistribution,
                                             segment_constant_width: bool)

  const TEXTURED_WIDTH_DEFAULT: real := 1.0
  const TEXTURED_DENSITY_DEFAULT: real := 5.0
  const TEXTURED_RADII_DEFAULT: Vec2 := Vec2(2.0, 0.3)

  /** `TexturedOptions::default()` */
  function DefaultTexturedOptions(): (o: TexturedOptions)
    ensures o.seed == None && o.stroke_width == 1.0 && o.density == 5.0 && o.stroke_color == Some(BLACK)
    ensures o.radii == Vec2(2.0, 0.3) && o.distribution == Normal && !o.segment_constant_width
  {
    TexturedOptions(None, TEXTURED_WIDTH_DEFAULT, Some(BLACK), TEXTURED_DENSITY_DEFAULT, TEXTURED_RADII_DEFAULT,
                    DefaultDistribution(), false)
  }

  /**
   * `From<v0.4 TexturedOptions>`: seed, color, density and radii are copied, the width becomes `stroke_width`,
   * the distribution is converted by its own `From`, and segments never get a constant width.
   */
  function FromV04TexturedOptions(to: StrokesV04.TexturedOptions): (o: TexturedOptions)
    ensures !o.segment_constant_width
  {
    TexturedOptions(to.seed, to.width, to.stroke_color, to.density, to.radii, FromV04Distribution(to.distribution),
                    false)
  }

  /** The v0.4 options a v0.5 value corresponds to: everything but `segment_constant_width`. */
  function ToV04TexturedOptions(o: TexturedOptions): StrokesV04.TexturedOptions {
    StrokesV04.TexturedOptions(o.seed, o.stroke_width, o.stroke_color, o.density, o.radii,
                               ToV04Distribution(o.distribution))
  }

  /**
   * The conversion loses nothing of the v0.4 options, and a v0.5 value is the image of a v0.4 value exactly when
   * its segments have no constant width.
   */
  lemma TexturedOptionsRoundTrip(to: StrokesV04.TexturedOptions, o: TexturedOptions)
    ensures ToV04TexturedOptions(FromV04TexturedOptions(to)) == to
    ensures FromV04TexturedOptions(ToV04TexturedOptions(o)) == o <==> !o.segment_constant_width
  {
    DistributionBijection(to.distribution, o.distribution);
  }

  /** The default v0.4 textured options convert to the default v0.5 textured options. */
  lemma TexturedDefaultsCorrespond()
    ensures FromV04TexturedOptions(StrokesV04.DefaultTexturedOptions()) == DefaultTexturedOptions()
  {
  }

  // Style

  datatype Style =
    | Smooth(smooth: SmoothOptions)
    | Rough(rough: RoughOptions)
    | Textured(textured: TexturedOptions)

  /** `Style::default()`: smooth, with the default smooth options. */
  function DefaultStyle(lib: OptionsLib): (s: Style)
    ensures s.Smooth? && s.smooth == lib.smoothDefault
  {
    Smooth(lib.smoothDefault)
  }

  /** `Style::stroke_width`: every variant has one, the `stroke_width` of its options. */
  function StrokeWidth(s: Style): real {
    match s
    case Smooth(options) => options.stroke_width
    case Rough(options) => options.stroke_width
    case Textured(options) => options.stroke_width
  }

  /** A textured v0.4 style keeps its width through the conversion. */
  lemma TexturedWidthCarriedOver(to: StrokesV04.TexturedOptions)
    ensures StrokeWidth(Textured(FromV04TexturedOptions(to))) == to.width
  {
  }
}
