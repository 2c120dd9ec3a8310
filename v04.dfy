/** The document-level records of rnote v0.4 (`rnotev0_4`): colors, the page format and the background. */
module RnoteV04 {
  import opened Vectors

  /** An RGBA color, each channel meant to lie in `[0, 1]`. */
  datatype Color = Color(r: real, g: real, b: real, a: real)

  const TRANSPARENT := Color(0.0, 0.0, 0.0, 0.0)
  const BLACK := Color(0.0, 0.0, 0.0, 1.0)
  const WHITE := Color(1.0, 1.0, 1.0, 1.0)
  const RED := Color(1.0, 0.0, 0.0, 1.0)
  const GREEN := Color(0.0, 1.0, 0.0, 1.0)
  const BLUE := Color(0.0, 0.0, 1.0, 1.0)

  /** `Color::default()`: opaque black. */
  function DefaultColor(): (c: Color)
    ensures c == BLACK
  {
    Color(0.0, 0.0, 0.0, 1.0)
  }

  datatype Orientation = Portrait | Landscape

  function DefaultOrientation(): (o: Orientation)
    ensures o == Portrait
  {
    Portrait
  }

  datatype Format = Format(width: real, height: real, dpi: real, orientation: Orientation)

  const FORMAT_DPI_DEFAULT: real := 96.0

  /** `Format::default()`: a zero-sized page at the default resolution, portrait. */
  function DefaultFormat(): (f: Format)
    ensures f.width == 0.0 && f.height == 0.0 && f.dpi == FORMAT_DPI_DEFAULT && f.orientation == Portrait
  {
    Format(0.0, 0.0, FORMAT_DPI_DEFAULT, Portrait)
  }

  /** `PatternStyle`; its `None` variant is named `NoPattern` here, clear of `Option`'s `None`. */
  datatype PatternStyle = NoPattern | Lines | Grid | Dots

  datatype Background = Background(color: Color, pattern: PatternStyle, pattern_size: Vec2, pattern_color: Color)

  /** `Background::default()`: white with light blue dots every 32 units. */
  function DefaultBackground(): (b: Background)
    ensures b.color == WHITE && b.pattern == Dots && b.pattern_size == Vec2(32.0, 32.0)
    ensures b.pattern_color == Color(0.8, 0.9, 1.0, 1.0)
  {
    Background(Color(1.0, 1.0, 1.0, 1.0), Dots, Vec2(32.0, 32.0), Color(0.8, 0.9, 1.0, 1.0))
  }
}
