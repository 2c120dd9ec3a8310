# rnote v0.4 → v0.5 file converter, modelled in Dafny

The converter reads a v0.4 rnote file (a `Sheet` made of a format, a background and a component store of
strokes), migrates every value to its v0.5 counterpart, and writes the result as a v0.5 `RnotefileWrapper`.
This project models that core:

- the v0.4 value types the migration reads: transforms, axis-aligned boxes and their tiling, shapes, strokes,
  and the strokes state;
- the v0.5 value types it writes: pen paths and their segments, the Bézier curves, shapes, styles, the brush
  stroke, the bitmap image, the stroke sum, the store snapshot and the document;
- every `From` conversion between the two, and `main`'s default destination name.

Each module's doc comment names the Rust modules it covers. Most modules cover one Rust file; `Tiling` holds
the three `split*` tilers of src/rnotev0_4/geometry.rs, whose other helpers are in `Geometry`; `ShapesV04`,
`StrokesV05` and `Styles` each gather a Rust module with its sub-modules; `Vectors`, `Slots` and `Wrappers` hold
the shared vector, slot-map and Option/Result types. Functions model pure code.
Methods with loops and invariants model the loops of the source: `split`, the two `split_extended` scans, the
curve approximations, the brush-stroke conversion and the element transform. Methods that
take the old value and return the new one model the `&mut self` updates, whose exclusive borrow makes
aliasing of `self` unobservable.
`PenPaths.TransformElements` works in place on an `array`.

Collaborators whose code is not part of this model are datatypes of total function values, passed as
parameters. `Styles.OptionsLib` holds the v0.5 smooth and rough options, their defaults and their `From`
impls. `BitmapImagesV05.ImageLib` holds base64 decoding, image decoding and encoding, and the pixel
conversion of the `image` crate.

Two behaviours of the code are worth noting:

- **Strokes that fail to convert.** The v0.5 store is built by a `filter_map` over the stroke column only
  (src/rnotev0_5/store.rs:38-63). A bitmap stroke whose data cannot be decoded is dropped from that column,
  while the trash, selection and chrono columns are copied whole. The columns therefore stay aligned exactly
  when no stroke fails (`StoreV05.AlignedIffNoFailure`).
- **Image validation.** `assert_valid` (src/rnotev0_5/stroke/bitmapimage.rs:105-116) compares the data
  length with `4 * pixel_width * pixel_height`, but its zero test checks `pixel_width == 0` twice and never
  tests the height. It is modelled as written, and
  `BitmapImagesV05.ZeroHeightPasses` shows a zero-height image being accepted.

## Model

| member | source | states |
|---|---|---|
| Transforms.Default | src/rnotev0_4/transform.rs:11-17 | the default transform maps every point to itself |
| Transforms.NewWIsometry | src/rnotev0_4/transform.rs:24-28 | the transform applies the isometry: rotate, then translate |
| Transforms.ComposeApply | src/rnotev0_4/transform.rs:35 | the affine product `f * g` applies `g` first, then `f` |
| Transforms.AppendTranslationMut | src/rnotev0_4/transform.rs:34-36 | every image of the new transform is the old image moved by the offset |
| Transforms.AppendRotationWrtPointMut | src/rnotev0_4/transform.rs:38-42 | the new images are the old ones rotated about the center; a point imaged at the center stays there |
| Transforms.AppendScaleMut | src/rnotev0_4/transform.rs:44-55 | the new images are the old ones scaled about the old image of the origin, which does not move |
| Geometry.Mins | src/rnotev0_4/geometry.rs:35-37 | each coordinate is at most both inputs' and equals one of them |
| Geometry.Maxs | src/rnotev0_4/geometry.rs:39-41 | each coordinate is at least both inputs' and equals one of them |
| Geometry.MinsMaxsOrdered | src/rnotev0_4/geometry.rs:43-59 | `mins_maxs` gives an ordered pair exactly when there is no tie with `self` the smaller; then it equals (mins, maxs) |
| Geometry.MinsMaxsInvertedOnTie | src/rnotev0_4/geometry.rs:43-59 | for (0,0) and (0,1), `mins_maxs` as written returns the pair inverted |
| Geometry.MinsMaxsIntended | src/rnotev0_4/geometry.rs:43-59 | the corrected `mins_maxs` is always ordered and equals (mins, maxs) |
| Geometry.NewZero | src/rnotev0_4/geometry.rs:101-103 | the zero box has both corners at the origin, so it is valid with zero extents |
| Geometry.NewPositiveCanonical | src/rnotev0_4/geometry.rs:105-115 | `new_positive` is valid, spans the componentwise mins and maxs, and ignores the order of its corners |
| Geometry.Translate | src/rnotev0_4/geometry.rs:117-119 | translation keeps the extents and validity, and a point is in the moved box iff the point moved back is in the original |
| Geometry.FloorShrinks | src/rnotev0_4/geometry.rs:121-126 | `floor` lies within the original box, each corner moved by less than 1 |
| Geometry.FloorMayInvert | src/rnotev0_4/geometry.rs:121-126 | `floor` of the valid box (0.25,0)-(0.75,1) is no longer valid |
| Geometry.CeilGrows | src/rnotev0_4/geometry.rs:128-133 | `ceil` contains the original box, moves each corner outward by less than 1, and keeps validity |
| Geometry.Clamp | src/rnotev0_4/geometry.rs:135-158 | with a max box the result is the intersection with it; with only a min box, the hull with it; with neither, the box itself |
| Geometry.ClampBounds | src/rnotev0_4/geometry.rs:135-158 | the hull contains both boxes and the intersection lies within both |
| Geometry.ExpandGrows | src/rnotev0_4/geometry.rs:160-165 | `expand` by a non-negative amount keeps validity, contains the original box, and grows each extent by twice the amount |
| Geometry.ScaleCorners | src/rnotev0_4/geometry.rs:167-172 | mins are scaled by the x factor only and maxs by the y factor only; a uniform positive scale keeps validity and scales the extents |
| Geometry.EnsureValid | src/rnotev0_4/geometry.rs:174-181 | the new box is the repaired box, and it is valid |
| Geometry.RepairedProperties | src/rnotev0_4/geometry.rs:174-181 | repairing makes a box valid, leaves a valid box alone, is idempotent, and treats each axis on its own |
| Geometry.HalvesMeetAtCenter | src/rnotev0_4/geometry.rs:183-195 | the two halves of `hsplit` and `vsplit` meet at the center and together span the box |
| Geometry.ScaleWLockedAspectratioFits | src/rnotev0_4/geometry.rs:293-300 | the scaled extents fit the target, touch it on one axis, and keep the aspect ratio |
| Geometry.ScaleInnerBoundsToNewOuterBounds | src/rnotev0_4/geometry.rs:303-338 | the result is the inner box mapped by the affine map that takes the old outer box onto the new one |
| Geometry.ScaleOuterOntoNewOuter | src/rnotev0_4/geometry.rs:303-338 | the outer box itself is mapped exactly onto the new outer box |
| Geometry.ScaleInnerStaysInside | src/rnotev0_4/geometry.rs:303-338 | an inner box within the outer box lands within the new outer box |
| Tiling.Split | src/rnotev0_4/geometry.rs:197-221 | the tiles form the regular 2^k by 2^m grid of the box; each fits the split size and k, m are the fewest halvings that fit |
| Tiling.SplitHorizontally | src/rnotev0_4/geometry.rs:200-208 | after the loop the tiles are the grid with the fewest halvings whose columns fit the width |
| Tiling.SplitVertically | src/rnotev0_4/geometry.rs:210-218 | after the loop the tiles are the grid with the fewest halvings whose rows fit the height |
| Tiling.HalveColumns | src/rnotev0_4/geometry.rs:202-207 | one pass of the inner loop replaces every tile by its two `hsplit` halves, in order |
| Tiling.HalveRows | src/rnotev0_4/geometry.rs:212-217 | one pass of the inner loop replaces every tile by its two `vsplit` halves, in order |
| Tiling.HRound | src/rnotev0_4/geometry.rs:202-207 | halving every column of the k-column grid gives the (k+1)-column grid |
| Tiling.VRound | src/rnotev0_4/geometry.rs:212-217 | halving every row of the grid gives the grid with one more row halving |
| Tiling.GridSize | src/rnotev0_4/geometry.rs:197-221 | the grid holds 2^k · 2^m tiles |
| Tiling.GridExtents | src/rnotev0_4/geometry.rs:197-221 | every tile's extents are the box's divided by 2^k and 2^m |
| Tiling.GridFits | src/rnotev0_4/geometry.rs:197-221 | with enough halvings every tile fits the split size |
| Tiling.GridWithin | src/rnotev0_4/geometry.rs:88-90 | every tile of a valid box lies within the box |
| Tiling.GridCovers | src/rnotev0_4/geometry.rs:197-221 | every point of a valid box lies in some tile |
| Tiling.GridDisjoint | src/rnotev0_4/geometry.rs:197-221 | the interiors of two different tiles do not overlap |
| Tiling.ClampedSize | src/rnotev0_4/geometry.rs:231-236 | a requested size larger than the box shrinks to the box's extents on that axis and is otherwise kept; it stays positive for a box and size that are |
| Tiling.RasterScan | src/rnotev0_4/geometry.rs:238-250 | the nested loops produce the raster-order tiles of the given limits, row by row |
| Tiling.SplitExtended | src/rnotev0_4/geometry.rs:223-253 | as written: the raster tiles starting at mins, with the offsets bounded by the box's extents |
| Tiling.SplitExtendedEmptyAwayFromOrigin | src/rnotev0_4/geometry.rs:238-239 | as written, a box whose mins exceed its extents on an axis yields no tile at all |
| Tiling.SplitExtendedMissesBox | src/rnotev0_4/geometry.rs:238-239 | the box (10,10)-(20,20) with size 5 yields no tile although it contains (15,15) |
| Tiling.SplitExtendedAgreesAtOrigin | src/rnotev0_4/geometry.rs:223-253 | for a box at the origin the code as written and the corrected one agree |
| Tiling.SplitExtendedIntended | src/rnotev0_4/geometry.rs:223-253 | corrected: the raster tiles starting at mins, with the offsets bounded by maxs |
| Tiling.SplitExtendedHangsOnFlatBox | src/rnotev0_4/geometry.rs:231-249 | as written, the flat box (0,-5)-(10,-5) with size 5 gets row step 0, and every row offset stays below the height, so the row loop never ends |
| Tiling.SplitExtendedIntendedTerminates | src/rnotev0_4/geometry.rs:231-249 | corrected: with a positive requested size both scan loops end on every box, flat and inverted ones included |
| Tiling.SplitExtendedIntendedCovers | src/rnotev0_4/geometry.rs:91-93 | corrected: every point of the box lies in some tile |
| Tiling.RasterTilesSized | src/rnotev0_4/geometry.rs:240-243 | every raster tile has exactly the split size as its extents |
| Tiling.AsU32 | src/rnotev0_4/geometry.rs:268-269 | the float-to-u32 cast is the value when in range, 0 below and `u32::MAX` above |
| Tiling.AlignedCounts | src/rnotev0_4/geometry.rs:268-269 | within `u32` range, the column and row counts are the ceil of the box's extents over the clamped size |
| Tiling.SplitExtendedOriginAligned | src/rnotev0_4/geometry.rs:255-289 | the tiles are the origin-aligned grid between the counted rows and columns |
| Tiling.PushAlignedRows | src/rnotev0_4/geometry.rs:276-286 | the nested loops append the aligned tiles, row by row |
| Tiling.AlignedTilesCount | src/rnotev0_4/geometry.rs:276-286 | there are (rows + 1)(columns + 1) tiles, since both loop bounds are inclusive |
| Tiling.AlignedTileOnOriginGrid | src/rnotev0_4/geometry.rs:94-97 | each tile's mins are integer multiples of the split size and its extents are the size |
| Tiling.AlignedTilesCover | src/rnotev0_4/geometry.rs:94-97 | every point of a box with positive extents lies in some aligned tile, given a positive size and counts within `u32` range |
| ShapesV04.TransformedAabb | src/rnotev0_4/shapes.rs:25-34 | the box is centered at the image of the origin, with half extents the absolute linear part applied to the half extents |
| ShapesV04.TransformedAabbCentered | src/rnotev0_4/shapes.rs:26-33 | the box's center is the image of the origin, and its half extents are the absolute linear part applied to the half extents |
| ShapesV04.TransformedAabbValid | src/rnotev0_4/shapes.rs:28-31 | the box is valid and its extents do not depend on the translation |
| ShapesV04.TransformedAabbContains | src/rnotev0_4/shapes.rs:25-34 | the image of every point within the half extents lies in the transformed box |
| ShapesV04.RectangleGlobalAabb | src/rnotev0_4/shapes.rs:25-34 | a rectangle's global box is centered at the image of the origin, and is valid when the half extents are non-negative |
| ShapesV04.EllipseGlobalAabb | src/rnotev0_4/shapes.rs:58-67 | an ellipse's global box is centered at the image of the origin, and is valid when the radii are non-negative |
| ShapesV04.RectangleGlobalAabbHoldsCorners | src/rnotev0_4/shapes.rs:25-34 | the images of the four corners of the rectangle lie in its global box |
| ShapesV04.DefaultRectangle | src/rnotev0_4/shapes.rs:15-22 | zero half extents and the identity transform |
| ShapesV04.DefaultEllipse | src/rnotev0_4/shapes.rs:48-55 | zero radii and the identity transform |
| RnoteV04.DefaultColor | src/rnotev0_4.rs:140-149 | opaque black |
| RnoteV04.DefaultOrientation | src/rnotev0_4.rs:73-77 | portrait |
| RnoteV04.DefaultFormat | src/rnotev0_4.rs:46-59 | zero width and height, 96 dpi, portrait |
| RnoteV04.DefaultBackground | src/rnotev0_4.rs:92-111 | white, with a pale blue dots pattern of size 32 × 32 |
| StrokesV04.DefaultSmoothOptions | src/rnotev0_4/strokes.rs:27-52 | no seed, no fill, black stroke, the default width, which lies within its bounds |
| StrokesV04.DefaultTexturedDotsDistribution | src/rnotev0_4/strokes.rs:64-68 | the normal distribution |
| StrokesV04.DefaultTexturedOptions | src/rnotev0_4/strokes.rs:95-122 | no seed, black stroke, width 1, density 5, radii (2, 0.3), normal distribution |
| StrokesV04.DefaultInputData | src/rnotev0_4/strokes/inputdata.rs:10-21 | origin position at the default pressure |
| StrokesV04.DefaultElement | src/rnotev0_4/strokes/element.rs:15-19 | default input data and no timestamp |
| StrokesV04.DefaultBrush | src/rnotev0_4/strokes/brush.rs:34-42 | the solid style with the default smooth and textured options |
| StrokesV04.DefaultBrushStroke | src/rnotev0_4/strokes/brushstroke.rs:39-49 | no elements, the solid style with default smooth options, a zero box |
| StrokesV04.DefaultShapeStroke | src/rnotev0_4/strokes/shapestroke.rs:49-60 | a default rectangle, drawn smooth with default options, no seed, a zero box |
| StrokesV04.DefaultVectorImage | src/rnotev0_4/strokes/vectorimage.rs:19-28 | empty svg data, zero size, a default rectangle |
| StrokesV04.AsMimeType | src/rnotev0_4/strokes/bitmapimage.rs:16-21 | png maps to `image/png` and jpeg to `image/jpeg` |
| StrokesV04.MimeTypesDistinct | src/rnotev0_4/strokes/bitmapimage.rs:16-21 | two formats share a mime type exactly when they are equal, and every mime type starts with `image/` |
| StrokesV04.DefaultBitmapImage | src/rnotev0_4/strokes/bitmapimage.rs:39-49 | empty data in png format, zero size, a default rectangle, a zero box |
| StrokesStateV04.DefaultStrokeStyle | src/rnotev0_4/strokesstate.rs:41-45 | a default brush stroke, which has no elements |
| PenPaths.Clamp | src/rnotev0_5/penpath/element.rs:32 | the value is within the bounds, and is unchanged when already inside |
| PenPaths.NewElement | src/rnotev0_5/penpath/element.rs:28-34 | the position is kept and the pressure clamped to [0, 1] |
| PenPaths.DefaultElement | src/rnotev0_5/penpath/element.rs:18-26 | origin position at the default pressure |
| PenPaths.SetPressureClamped | src/rnotev0_5/penpath/element.rs:36-39 | the position is kept, and the pressure is the new one clamped to [0, 1] |
| PenPaths.FilterByBounds | src/rnotev0_5/penpath/element.rs:41-44 | true exactly when the position is outside the box |
| PenPaths.TransformBy | src/rnotev0_5/penpath/element.rs:46-49 | the position is mapped by the transform and the pressure kept |
| PenPaths.TransformedComposes | src/rnotev0_5/penpath/element.rs:46-49 | transforming by g then f equals transforming by their product |
| PenPaths.TransformElements | src/rnotev0_5/penpath/element.rs:51-56 | every element of the array is transformed in place, pressure kept, nothing else changes |
| PenPaths.FromV04Element | src/rnotev0_5/penpath/element.rs:59-65 | position and pressure are copied from the input data |
| PenPaths.FromV04ElementDefault | src/rnotev0_5/penpath/element.rs:59-65 | the default v0.4 element converts to the default v0.5 element |
| PenPaths.FromV04ElementDoesNotClamp | src/rnotev0_5/penpath/element.rs:59-65 | an out-of-range v0.4 pressure is carried over unclamped |
| PenPaths.Start | src/rnotev0_5/penpath/segment.rs:58-66 | a dot starts at its element; the other segments at their start |
| PenPaths.End | src/rnotev0_5/penpath/segment.rs:68-76 | a dot ends at its element; the other segments at their end |
| PenPaths.StartEndIgnoreControlPoints | src/rnotev0_5/penpath/segment.rs:57-77 | the start and end of a segment do not depend on its control points |
| PenPaths.NewWSegment | src/rnotev0_5/penpath.rs:37-43 | a path holding just that segment |
| PenPaths.NewWDot | src/rnotev0_5/penpath.rs:32-35 | a path holding just a dot at the element |
| PenPaths.IntoElements | src/rnotev0_5/penpath.rs:45-62 | the element list has one element per dot and two per other segment; it opens with the first segment's start and closes with the last segment's end, and without dots positions 2k and 2k+1 hold the start and end of segment k |
| PenPaths.ElementsLength | src/rnotev0_5/penpath.rs:45-62 | the element count is twice the segment count less the dots |
| PenPaths.ElementsOfAppend | src/rnotev0_5/penpath.rs:45-62 | the elements of two paths joined are the elements of each, joined |
| PenPaths.ElementsIgnoreControlPoints | src/rnotev0_5/penpath.rs:49-58 | the element list holds only starts and ends, never control points |
| PenPaths.ElementsOfPairs | src/rnotev0_5/penpath.rs:45-62 | for a path of lines, element 2i is segment i's start and 2i+1 its end |
| PenPaths.FromIter | src/rnotev0_5/penpath.rs:65-69 | the path holds the segments in the order given |
| PenPaths.FromIterRoundTrip | src/rnotev0_5/penpath.rs:65-69 | collecting the segments of a path gives that path back |
| PenPaths.NewWDotElements | src/rnotev0_5/penpath.rs:32-62 | a one-dot path has that element as its only element |
| Curves.FromV04Line | src/rnotev0_5/shapes/line.rs:51-58 | both ends copied |
| Curves.ParamBounds | src/rnotev0_5/shapes/line.rs:37-40 | the split parameters are 0 at the first point and 1 at the last, and all lie in [0, 1] |
| Curves.SplitLine | src/rnotev0_5/shapes/line.rs:31-48 | n pieces that chain from the line's start to its end |
| Curves.SplitLineOnLine | src/rnotev0_5/shapes/line.rs:31-48 | both ends of every piece are points of the line at parameters in [0, 1] |
| Curves.QuadbezCalcPolynomialForm | src/rnotev0_5/shapes/quadbez.rs:82-111 | the coefficients give the polynomial a t² + b t + c of the curve |
| Curves.QuadbezCalcBernstein | src/rnotev0_5/shapes/quadbez.rs:82-111 | the polynomial form equals the Bernstein form of the quadratic Bézier curve, which starts at the start and ends at the end |
| Curves.QuadbezDeriveIsDerivative | src/rnotev0_5/shapes/quadbez.rs:113-136 | the curve at t + h is its value at t plus h times the derivative at t plus h² times the leading coefficient, exactly |
| Curves.QuadbezDeriveAtEnds | src/rnotev0_5/shapes/quadbez.rs:127-136 | the derivative at 0 and 1 is twice the control-polygon legs |
| Curves.QuadbezCalcOffsetDistAtT | src/rnotev0_5/shapes/quadbez.rs:22-31 | the width is the start width at t = 0 and the end width at t = 1 |
| Curves.OffsetDistBetween | src/rnotev0_5/shapes/quadbez.rs:22-31 | for t in [0, 1] the width lies between the two end widths, whichever is larger |
| Curves.SplitQuad | src/rnotev0_5/shapes/quadbez.rs:33-52 | two curves meeting at the curve's point at t, keeping the outer ends |
| Curves.SplitQuadTracesCurve | src/rnotev0_5/shapes/quadbez.rs:33-52 | the two halves trace exactly the two parts of the original curve |
| Curves.ToCubicBezier | src/rnotev0_5/shapes/quadbez.rs:54-62 | the cubic keeps both ends, and its control points lie two thirds of the way from each end to the quadratic's control point |
| Curves.ToCubicBezierLossless | src/rnotev0_5/shapes/quadbez.rs:54-62 | the cubic traces exactly the same curve as the quadratic |
| Curves.QuadChords | src/rnotev0_5/shapes/quadbez.rs:64-79 | n chords of evenly spaced curve points, chained from start to end |
| Curves.QuadApproxWithLines | src/rnotev0_5/shapes/quadbez.rs:64-79 | the loop produces exactly those chords |
| Curves.CubbezCalcBernstein | src/rnotev0_5/shapes/cubbez.rs:116-139 | the matrix form equals the Bernstein form of the cubic Bézier curve, which starts at the start and ends at the end |
| Curves.MagnitudeZero | src/rnotev0_5/shapes/cubbez.rs:51-54 | a vector has squared length 0 exactly when it is zero |
| Curves.NewWCatmullRom | src/rnotev0_5/shapes/cubbez.rs:35-57 | `None` exactly when the middle two points coincide; otherwise a curve from the second to the third point |
| Curves.CatmullRomJoinsSmoothly | src/rnotev0_5/shapes/cubbez.rs:25-57 | consecutive Catmull-Rom pieces share their joining point and their tangent there |
| Curves.SplitCubic | src/rnotev0_5/shapes/cubbez.rs:59-87 | two curves meeting at the curve's point at t, keeping the outer ends |
| Curves.CasteljauCoordinate | src/rnotev0_5/shapes/cubbez.rs:59-87 | the de Casteljau split point is the curve's point at t |
| Curves.ApproxWithQuadbez | src/rnotev0_5/shapes/cubbez.rs:89-96 | the quadratic keeps both ends of the cubic, with its control point midway between the cubic's two |
| Curves.CubicChords | src/rnotev0_5/shapes/cubbez.rs:98-113 | n chords of evenly spaced curve points, chained from start to end |
| Curves.CubicApproxWithLines | src/rnotev0_5/shapes/cubbez.rs:98-113 | the loop produces exactly those chords |
| ShapesV05.DefaultRectangle | src/rnotev0_5/shapes/rectangle.rs:19-26 | zero half extents and the identity transform |
| ShapesV05.FromP2dAabb | src/rnotev0_5/shapes/rectangle.rs:29-35 | half extents half the box's, and a transform that translates by the box's center |
| ShapesV05.OutlineLines | src/rnotev0_5/shapes/rectangle.rs:37-74 | four lines forming a closed loop that starts at the corners (−h, −h), (−h, +h), (+h, +h) and (+h, −h), each mapped by the transform |
| ShapesV05.FromP2dAabbOutline | src/rnotev0_5/shapes/rectangle.rs:29-74 | the outline of a rectangle made from a box runs through the box's four corners |
| ShapesV05.FromV04Rectangle | src/rnotev0_5/shapes/rectangle.rs:77-81 | cuboid and transform copied |
| ShapesV05.FromV04RectangleOutlineInGlobalAabb | src/rnotev0_5/shapes/rectangle.rs:38-81 | with non-negative half extents, both ends of every outline line of the converted rectangle lie in the v0.4 rectangle's global box |
| ShapesV05.DefaultEllipse | src/rnotev0_5/shapes/ellipse.rs:17-24 | zero radii and the identity transform |
| ShapesV05.FromV04Ellipse | src/rnotev0_5/shapes/ellipse.rs:26-33 | radii and transform copied |
| ShapesV05.DefaultsCorrespond | src/rnotev0_5/shapes/rectangle.rs:19-26 | the v0.4 default rectangle and ellipse convert to the v0.5 defaults |
| ShapesV05.DefaultShape | src/rnotev0_5/shapes/shape.rs:31-35 | a default line |
| ShapesV05.FromV04Shape | src/rnotev0_5/shapes/shape.rs:37-45 | each variant converts to the same variant, never to a Bézier curve or a pen-path segment |
| ShapesV05.FromV04ShapeRoundTrip | src/rnotev0_5/shapes/shape.rs:37-45 | reading a converted shape back as v0.4 gives the original |
| ShapesV05.FromV04ShapeInjective | src/rnotev0_5/shapes/shape.rs:37-45 | different v0.4 shapes convert to different v0.5 shapes |
| Styles.DefaultDistribution | src/rnotev0_5/stroke/style/textureddotsdistribution.rs:16-20 | the normal distribution |
| Styles.DistributionBijection | src/rnotev0_5/stroke/style/textureddotsdistribution.rs:22-32 | the conversion is a bijection: each direction undoes the other |
| Styles.DistributionDefaultsCorrespond | src/rnotev0_5/stroke/style/textureddotsdistribution.rs:27 | the v0.4 default converts to the v0.5 default |
| Styles.DefaultTexturedOptions | src/rnotev0_5/stroke/style/texturedoptions.rs:34-55 | no seed, black stroke, width 1, density 5, radii (2, 0.3), normal distribution, width not constant per segment |
| Styles.FromV04TexturedOptions | src/rnotev0_5/stroke/style/texturedoptions.rs:57-78 | the new `segment_constant_width` flag is off |
| Styles.TexturedOptionsRoundTrip | src/rnotev0_5/stroke/style/texturedoptions.rs:57-78 | converting back gives the original, and v0.5 options come from v0.4 exactly when the flag is off |
| Styles.TexturedDefaultsCorrespond | src/rnotev0_5/stroke/style/texturedoptions.rs:34-78 | the v0.4 default converts to the v0.5 default |
| Styles.DefaultStyle | src/rnotev0_5/stroke/style.rs:25-29 | the smooth style with the library's default options |
| Styles.TexturedWidthCarriedOver | src/rnotev0_5/stroke/style.rs:33-39 | a textured style converted from v0.4 has the v0.4 width as its stroke width |
| BrushStrokesV05.FromPenpath | src/rnotev0_5/stroke/brushstroke.rs:38-44 | the path and style are kept; a path without segments gives `None` |
| BrushStrokesV05.New | src/rnotev0_5/stroke/brushstroke.rs:32-36 | a path holding only a dot at the element |
| BrushStrokesV05.DefaultBrushStroke | src/rnotev0_5/stroke/brushstroke.rs:17-26 | a dot at the default element in the default style |
| BrushStrokesV05.PushSegment | src/rnotev0_5/stroke/brushstroke.rs:46-48 | the segment is appended to the path and nothing else changes |
| BrushStrokesV05.PushKeepsNonEmpty | src/rnotev0_5/stroke/brushstroke.rs:38-48 | a pushed-to path has at least one segment |
| BrushStrokesV05.ConvertStyle | src/rnotev0_5/stroke/brushstroke.rs:53-63 | each v0.4 brush style maps to the matching v0.5 style with converted options |
| BrushStrokesV05.ConvertElements | src/rnotev0_5/stroke/brushstroke.rs:66-87 | as many v0.5 elements as v0.4 ones |
| BrushStrokesV05.FromV04 | src/rnotev0_5/stroke/brushstroke.rs:51-105 | the loop builds the specified path: a single dot for one element, otherwise one line per element, each from the previous element |
| BrushStrokesV05.ConvertedPathShape | src/rnotev0_5/stroke/brushstroke.rs:65-101 | one segment per element: a dot exactly when there is one element, otherwise only lines; chained, and starting at the first element |
| BrushStrokesV05.ConvertedPathEnds | src/rnotev0_5/stroke/brushstroke.rs:81-98 | segment k ends at element k |
| BrushStrokesV05.ConvertedPathElements | src/rnotev0_5/stroke/brushstroke.rs:65-101 | the path's elements are the single element, or for each k the previous element (the first for k = 0) and element k |
| BrushStrokesV05.ConvertedIsNonEmpty | src/rnotev0_5/stroke/brushstroke.rs:38-44 | the converted path is non-empty, so `from_penpath` on it returns `Some` of the converted stroke |
| BitmapImagesV05.DefaultMemoryFormat | src/rnotev0_5/stroke/bitmapimage.rs:43-47 | premultiplied RGBA with 8 bits per channel |
| BitmapImagesV05.DefaultImage | src/rnotev0_5/stroke/bitmapimage.rs:70-80 | no data, zero size, default memory format |
| BitmapImagesV05.DefaultBitmapImage | src/rnotev0_5/stroke/bitmapimage.rs:23-30 | a default image in a default rectangle |
| BitmapImagesV05.FromDynamicImage | src/rnotev0_5/stroke/bitmapimage.rs:82-102 | the image's size and RGBA bytes in the premultiplied RGBA format, and a rectangle spanning the image from the origin |
| BitmapImagesV05.FromDynamicImageRect | src/rnotev0_5/stroke/bitmapimage.rs:84-100 | the rectangle covers the image's size at the given position |
| BitmapImagesV05.AssertValid | src/rnotev0_5/stroke/bitmapimage.rs:105-116 | an error exactly when the width is 0 or the data does not hold 4 · width · height bytes; the zero test checks the width twice and never the height |
| BitmapImagesV05.ZeroHeightPasses | src/rnotev0_5/stroke/bitmapimage.rs:106-115 | a zero-height image with a non-zero width and no data passes validation |
| BitmapImagesV05.FromDynamicImageValid | src/rnotev0_5/stroke/bitmapimage.rs:82-116 | a decoded image with a non-zero width and 4 · width · height bytes passes validation |
| BitmapImagesV05.TryFromEncodedBytes | src/rnotev0_5/stroke/bitmapimage.rs:118-126 | succeeds exactly when decoding does, with the decoded image converted |
| BitmapImagesV05.ConvertToRgba8pre | src/rnotev0_5/stroke/bitmapimage.rs:128-160 | an invalid image is an error and unchanged; an RGBA image is kept; a BGRA image becomes RGBA with the buffer's converted data when the buffer can be built, and is otherwise an error and unchanged |
| BitmapImagesV05.ToImgbuf | src/rnotev0_5/stroke/bitmapimage.rs:162-188 | an error for an invalid image or when the buffer cannot be built; otherwise the buffer of the data, converted to RGBA for BGRA data |
| BitmapImagesV05.IntoEncodedBytes | src/rnotev0_5/stroke/bitmapimage.rs:190-206 | an error for an invalid image; otherwise succeeds exactly when the buffer and the encoder do, with the encoder's bytes |
| BitmapImagesV05.DecoderFormat | src/rnotev0_5/stroke/bitmapimage.rs:219-222 | png decodes as png and jpeg as jpeg |
| BitmapImagesV05.TryFromV04 | src/rnotev0_5/stroke/bitmapimage.rs:209-230 | an error exactly when base64 or image decoding fails; otherwise the decoded image, with the v0.4 rectangle converted |
| BitmapImagesV05.TryFromV04IgnoresSizeAndBounds | src/rnotev0_5/stroke/bitmapimage.rs:212-229 | the v0.4 size and bounds play no part in the result |
| StrokesV05.NewShapeStroke | src/rnotev0_5/stroke/shapestroke.rs:15-19 | shape and style stored unchanged |
| StrokesV05.DefaultShapeStroke | src/rnotev0_5/stroke/shapestroke.rs:6-13 | the default shape in the default style |
| StrokesV05.FromV04ShapeStroke | src/rnotev0_5/stroke/shapestroke.rs:21-37 | a rough draw style becomes rough and a smooth one smooth, never textured; the shape reads back as the original |
| StrokesV05.ShapeStrokeDropsSeedAndBounds | src/rnotev0_5/stroke/shapestroke.rs:22-36 | the v0.4 seed and bounds play no part in the result |
| StrokesV05.DefaultVectorImage | src/rnotev0_5/stroke/vectorimage.rs:16-24 | empty svg data, zero size, a default rectangle |
| StrokesV05.FromV04VectorImage | src/rnotev0_5/stroke/vectorimage.rs:31-39 | svg data and size copied, rectangle converted |
| StrokesV05.VectorImageLosesOnlyBounds | src/rnotev0_5/stroke/vectorimage.rs:31-39 | two v0.4 images convert alike exactly when they differ at most in their bounds |
| StrokesV05.VectorImageDefaultsCorrespond | src/rnotev0_5/stroke/vectorimage.rs:16-39 | the v0.4 default converts to the v0.5 default |
| StrokesV05.DefaultStroke | src/rnotev0_5/stroke.rs:27-31 | a default brush stroke |
| StrokesV05.StrokeFrom | src/rnotev0_5/stroke.rs:33-49 | `None` exactly for a bitmap whose conversion fails; otherwise the same variant, converted |
| StrokesV05.UndecodableBitmapIsDropped | src/rnotev0_5/stroke.rs:40-46 | a bitmap whose base64 text does not decode becomes `None` |
| StrokesV05.DefaultV04StrokeNotConvertible | src/rnotev0_4/strokesstate.rs:41-45 | the default v0.4 stroke is a brush stroke with no elements, which the conversion cannot take |
| StoreV05.DefaultHistoryEntry | src/rnotev0_5/store.rs:23-33 | four empty columns and a zero chrono counter |
| StoreV05.ConvertSlot | src/rnotev0_5/store.rs:45-54 | an empty slot stays empty; an occupied one keeps its version and holds the converted stroke, or is dropped when that fails |
| StoreV05.FilterMapSurvivors | src/rnotev0_5/store.rs:42-56 | the output is the surviving slots converted, in input order, as many as the input less the failures |
| StoreV05.VersionsKept | src/rnotev0_5/store.rs:51-54 | every output slot keeps the version of the input slot it comes from |
| StoreV05.EmptySlotKept | src/rnotev0_5/store.rs:45-51 | an empty input slot appears in the output as an empty slot of the same version |
| StoreV05.NoFailureKeepsIndices | src/rnotev0_5/store.rs:42-56 | without failures the output is the input converted index for index |
| StoreV05.FromStrokesState | src/rnotev0_5/store.rs:38-63 | the stroke column filter-mapped; trash, selection, chrono columns and counter copied |
| StoreV05.AlignedIffNoFailure | src/rnotev0_5/store.rs:57-60 | from aligned columns the entry is aligned exactly when no stroke fails |
| StoreV05.RenderComponentsDropped | src/rnotev0_5/store.rs:9-21 | the v0.4 render column plays no part in the result |
| RnoteV05.FormatDefaultsWithinBounds | src/rnotev0_5.rs:111-123 | each default format value lies within its bounds |
| RnoteV05.DefaultFormat | src/rnotev0_5.rs:86-97 | the A4 size at 96 dpi, portrait, red borders shown |
| RnoteV05.FormatFromV04 | src/rnotev0_5.rs:99-109 | border colour and visibility come from the default |
| RnoteV05.FormatRoundTrip | src/rnotev0_5.rs:99-109 | size, dpi and orientation are kept; a v0.5 format comes from v0.4 exactly when its borders are red and shown |
| RnoteV05.DefaultLayout | src/rnotev0_5.rs:136-140 | the infinite layout |
| RnoteV05.DefaultDocument | src/rnotev0_5.rs:55-67 | at the origin, as large as the default format, infinite layout |
| RnoteV05.FromSheet | src/rnotev0_5.rs:158-190 | position, size and background from the sheet, the format converted from the sheet's with the default red, shown borders, infinite layout, store converted, version "0.5.1" |
| RnoteV05.SheetVersionDiscarded | src/rnotev0_5.rs:160-169 | the sheet's own version string plays no part |
| RnoteV05.FromSheetAligned | src/rnotev0_5.rs:181-184 | the file's store columns are aligned exactly when no stroke of the sheet fails |
| Destination.LastDot | src/main.rs:36-37 | `None` exactly for a dotless name; otherwise a dot with no other dot after it |
| Destination.FileStem | src/main.rs:31 | a stem exactly when the path has a file name |
| Destination.WithFileName | src/main.rs:35 | the same directory with the given file name |
| Destination.SetExtension | src/main.rs:37 | without a stem nothing changes; otherwise the name is cut after its stem and the extension appended |
| Destination.SplitStemExt | src/main.rs:31-37 | `stem.ext` with both parts non-empty and a dotless extension splits back into them |
| Destination.SplitNoDot | src/main.rs:31-37 | a dotless name is all stem, without an extension |
| Destination.DefaultDestination | src/main.rs:28-40 | an explicit destination is used as given; otherwise an error exactly when the source has no stem, else the as-written name beside the source |
| Destination.AsWrittenOneDot | src/main.rs:29-38 | `name.ext` gets `name-converted.ext` |
| Destination.AsWrittenNoExtension | src/main.rs:36-38 | `name` gets `name-converted` |
| Destination.AsWrittenCutsDottedStem | src/main.rs:35-38 | as written, `a.b.ext` gets `a.ext` |
| Destination.AsWrittenLosesDottedStem | src/main.rs:35-38 | the source `a.b.rnote` gets `a.rnote` |
| Destination.DefaultDestinationIntended | src/main.rs:28-40 | corrected: the extension is appended to the pushed name, so the name is the whole stem, `-converted` and the extension |
| Destination.IntendedKeepsStemAndExtension | src/main.rs:28-40 | corrected: the destination's stem is the source's stem with `-converted`, and its extension is the source's |
| Destination.IntendedKeepsDottedStem | src/main.rs:35-38 | corrected: `a.b.rnote` gets `a.b-converted.rnote` |

## Left out

- Floating point: coordinates and sizes are reals, so IEEE rounding, NaN, infinities and the NaN rules of
  `f64::min`/`f64::max` are not modelled.
- Geometry.ScaleWLockedAspectratioFits and Geometry.ScaleInnerBoundsToNewOuterBounds: they require non-zero
  extents, where the source divides by zero and yields infinities or NaN.
- Tiling.Split: it requires, on each axis, a positive split size or a box that already fits; otherwise the
  source's halving loop never ends, which the model does not capture.
- Tiling.SplitExtended and Tiling.SplitExtendedIntended: they require that both scan loops end
  (`Tiling.RasterTerminates`). A non-positive requested size on an axis with positive extent makes the
  source's loops never end, and so does a zero extent in the code as written (a Finding below); the model
  does not capture the non-terminating runs.
- Tiling.SplitExtendedOriginAligned: it requires a non-zero clamped size on both axes
  (`Tiling.AlignedSplittable`). A zero extent or a zero requested size on an axis clamps that size to zero;
  the source then divides by zero and pushes tiles with infinite or NaN coordinates, which real arithmetic
  cannot express.
- Tiling.AlignedTilesCover: it requires that the ceil counts stay within `u32` range; beyond that the
  saturating `as u32` casts (modelled by `Tiling.AsU32`) cut the grid short.
- BitmapImagesV05.AssertValid: the `u32` arithmetic of `4 * width * height` and `len() as u32`
  (src/rnotev0_5/stroke/bitmapimage.rs:108) is computed on unbounded integers, so wrap-around is not modelled.
- The unit tangent and normal of geometry.rs:15-33 use a square root and are not part of this model.
- `line_w_width_to_rect` (src/rnotev0_5/shapes/line.rs:20-29) needs sine and cosine and is left out.
- The rotation of `append_rotation_wrt_point_mut` is any 2×2 linear map; trigonometry is not modelled.
- `to_svg_transform_attr_str` (src/rnotev0_4/transform.rs:57-69) formats floats as text and is left out.
- The v0.5 smooth and rough options modules are not part of this model: their defaults and `From` impls are
  fields of `Styles.OptionsLib`.
- The `image` and `base64` crates are fields of `BitmapImagesV05.ImageLib`: decoding, encoding and
  the pixel conversion are opaque.
- Reading, gzip decompression, serde deserialization and writing of files, and the command-line parsing
  (src/main.rs:42-79), are I/O and are left out. So are the serde base64 helpers (src/rnotev0_5.rs:142-156).
- The `eprint!` report of a failed bitmap conversion (src/rnotev0_5/stroke.rs:43) is output only; the model
  keeps just its `None`.
- Paths are reduced to a directory and a file name: separators, prefixes, roots and OS string encodings are not
  modelled.
- `&mut self` updates are modelled as methods returning the new value; their exclusive borrow makes aliasing
  of `self` unobservable, so nothing is lost beyond the update happening in place.
- A v0.4 brush stroke without elements makes the brush-stroke conversion panic. The model does not capture
  the panic: it requires convertible strokes (`StrokesV05.Convertible`) all the way up to `RnoteV05.FromSheet`.
- A source path without a file stem makes `main` panic in `expect`; `Destination.DefaultDestination`
  returns an error instead.

## Findings

| source | as written | input that shows it | evidently intended | confidence | as-written member | corrected member |
|---|---|---|---|---|---|---|
| src/rnotev0_4/geometry.rs:238-239 | the scan offsets are compared with the box's extents instead of its maxs | the box (10,10)-(20,20) with split size 5 yields no tile, although it contains (15,15) | the tiles cover the box wherever it lies | not executed | Tiling.SplitExtendedMissesBox | Tiling.SplitExtendedIntendedCovers |
| src/rnotev0_4/geometry.rs:231-249 | a zero extent clamps the step on that axis to 0, while the loop compares the offset, starting at mins, with that extent | the flat box (0,-5)-(10,-5) with split size 5: the row offset stays at -5 < 0 and the loop never ends | the scan ends on every box for a positive size | not executed | Tiling.SplitExtendedHangsOnFlatBox | Tiling.SplitExtendedIntendedTerminates |
| src/rnotev0_4/geometry.rs:43-59 | on a tie in x with `self` smaller in y, the pair is returned as (other, self) | `mins_maxs((0,0), (0,1))` gives ((0,1), (0,0)) | an ordered pair of mins and maxs | not executed | Geometry.MinsMaxsInvertedOnTie | Geometry.MinsMaxsIntended |
| src/main.rs:35-38 | `set_extension` is applied to the name with `-converted` pushed, cutting it at its own last dot | the source `a.b.rnote` gets the destination `a.rnote` | `a.b-converted.rnote`: the whole stem, `-converted`, the extension | not executed | Destination.AsWrittenLosesDottedStem | Destination.IntendedKeepsStemAndExtension |
