/**
 * The rnote v0.5 file (`rnotev0_5`): the versioned wrapper, the document with its format and layout, and the one
 * migration step, from a v0.4 `Sheet` to a v0.5 `RnotefileWrapper`.
 */
module RnoteV05 {
  import opened Wrappers
  import opened RnoteV04
  import StrokesStateV04
  import StrokesV05
  import StoreV05

  // Format

  datatype Format = Format(width: real, height: real, dpi: real, orientation: Orientation, border_color: Color,
                           show_borders: bool)

  const WIDTH_MIN: real := 1.0
  const WIDTH_MAX: real := 30000.0
  const WIDTH_DEFAULT: real := 1123.0

  const HEIGHT_MIN: real := 1.0
  const HEIGHT_MAX: real := 30000.0
  const HEIGHT_DEFAULT: real := 1587.0

  const DPI_MIN: real := 1.0
  const DPI_MAX: real := 5000.0
  const DPI_DEFAULT: real := 96.0

  /** Every default lies within its bounds. */
  lemma FormatDefaultsWithinBounds()
    ensures WIDTH_MIN <= WIDTH_DEFAULT <= WIDTH_MAX
    ensures HEIGHT_MIN <= HEIGHT_DEFAULT <= HEIGHT_MAX
    ensures DPI_MIN <= DPI_DEFAULT <= DPI_MAX
  {
  }

  /** `Format::default()`: an A4 page at 96 dpi, portrait, with red borders shown. */
  function DefaultFormat(): (f: Format)
    ensures f.width == 1123.0 && f.height == 1587.0 && f.dpi == 96.0 && f.orientation == Portrait
    ensures f.border_color == RED && f.show_borders
  {
    Format.Format(WIDTH_DEFAULT, HEIGHT_DEFAULT, DPI_DEFAULT, DefaultOrientation(), RED, true)
  }

  /** `From<v0.4 Format>`: size, resolution and orientation copied; border colour and visibility from the default. */
  function FormatFromV04(format: RnoteV04.Format): (f: Format)
    ensures f.border_color == RED && f.show_borders
  {
    DefaultFormat().(width := format.width, height := format.height, dpi := format.dpi,
                     orientation := format.orientation)
  }

  /** The v0.4 part of a v0.5 format. */
  function FormatToV04(f: Format): RnoteV04.Format {
    RnoteV04.Format(f.width, f.height, f.dpi, f.orientation)
  }

  /**
   * The format conversion loses nothing, and a v0.5 format comes from a v0.4 one exactly when its borders are
   * red and shown.
   */
  lemma FormatRoundTrip(format: RnoteV04.Format, f: Format)
    ensures FormatToV04(FormatFromV04(format)) == format
    ensures FormatFromV04(FormatToV04(f)) == f <==> f.border_color == RED && f.show_borders
  {
  }

  // Layout and document

  datatype Layout = FixedSize | ContinuousVertical | Infinite

  /** `Layout::default()` */
  function DefaultLayout(): (l: Layout)
    ensures l == Infinite
  {
    Infinite
  }

  datatype Document = Document(x: real, y: real, width: real, height: real, format: Format,
                               background: Background, layout: Layout)

  /** `Document::default()`: at the origin, as large as the default format, infinite layout. */
  function DefaultDocument(): (d: Document)
    ensures d.x == 0.0 && d.y == 0.0 && d.width == 1123.0 && d.height == 1587.0
    ensures d.format == DefaultFormat() && d.background == DefaultBackground() && d.layout == Infinite
  {
    Document(0.0, 0.0, DefaultFormat().width, DefaultFormat().height, DefaultFormat(), DefaultBackground(),
             DefaultLayout())
  }

  // The file

  datatype RnotefileMaj0Min5 = RnotefileMaj0Min5(document: Document, store_snapshot: StoreV05.HistoryEntry)

  datatype RnotefileWrapper = RnotefileWrapper(version: string, data: RnotefileMaj0Min5)

  /** `RnotefileWrapper::VERSION` */
  const VERSION: string := "0.5.1"

  /**
   * `From<Sheet> for RnotefileWrapper`: the document takes the sheet's position, size and background, the
   * converted format and the default (infinite) layout; the store snapshot is the converted strokes state; the
   * version is always "0.5.1". The sheet's own version string is not used.
   */
  function FromSheet(sheet: StrokesStateV04.Sheet, libs: StrokesV05.Libs): (w: RnotefileWrapper)
    requires StoreV05.AllConvertible(sheet.strokes_state.strokes)
    ensures w.version == "0.5.1"
    ensures w.data.document.x == sheet.x && w.data.document.y == sheet.y
    ensures w.data.document.width == sheet.width && w.data.document.height == sheet.height
    ensures w.data.document.background == sheet.background && w.data.document.layout == Infinite
    ensures w.data.document.format == FormatFromV04(sheet.format)
    ensures FormatToV04(w.data.document.format) == sheet.format
    ensures w.data.store_snapshot == StoreV05.FromStrokesState(sheet.strokes_state, libs)
  {
    FormatRoundTrip(sheet.format, DefaultFormat());
    var document := DefaultDocument().(x := sheet.x, y := sheet.y, width := sheet.width, height := sheet.height,
                                       format := FormatFromV04(sheet.format), background := sheet.background);
    var data := RnotefileMaj0Min5(document, StoreV05.FromStrokesState(sheet.strokes_state, libs));
    RnotefileWrapper(VERSION, data)
  }

  /** The v0.4 version string is discarded: sheets differing only in it migrate alike. */
  lemma SheetVersionDiscarded(sheet: StrokesStateV04.Sheet, version: string, libs: StrokesV05.Libs)
    requires StoreV05.AllConvertible(sheet.strokes_state.strokes)
    ensures FromSheet(sheet.(version := version), libs) == FromSheet(sheet, libs)
  {
  }

  /**
   * A sheet whose strokes all convert migrates to a file whose columns line up exactly as the sheet's did; a
   * single dropped stroke breaks that.
   */
  lemma FromSheetAligned(sheet: StrokesStateV04.Sheet, libs: StrokesV05.Libs)
    requires StoreV05.AllConvertible(sheet.strokes_state.strokes) && StoreV05.AlignedV04(sheet.strokes_state)
    ensures StoreV05.Aligned(FromSheet(sheet, libs).data.store_snapshot)
            <==> StoreV05.FailureCount(sheet.strokes_state.strokes, libs) == 0
  {
    StoreV05.AlignedIffNoFailure(sheet.strokes_state, libs);
  }
}
