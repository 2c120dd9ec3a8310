/**
 * The component store of rnote v0.4 (`rnotev0_4::strokesstate`) and the v0.4 document (`rnotev0_4::Sheet`),
 * which holds it. Every column is a slot map indexed by stroke key.
 */
module StrokesStateV04 {
  import opened Wrappers
  import opened Slots
  import opened RnoteV04
  import StrokesV04

  datatype StrokeStyle =
    | BrushStroke(brushstroke: StrokesV04.BrushStroke)
    | ShapeStroke(shapestroke: StrokesV04.ShapeStroke)
    | VectorImage(vectorimage: StrokesV04.VectorImage)
    | BitmapImage(bitmapimage: StrokesV04.BitmapImage)

  /** `StrokeStyle::default()`: a default brush stroke. */
  function DefaultStrokeStyle(): (s: StrokeStyle)
    ensures s == BrushStroke(StrokesV04.DefaultBrushStroke())
  {
    BrushStroke(StrokesV04.DefaultBrushStroke())
  }

  datatype TrashComponent = TrashComponent(trashed: bool)

  datatype SelectionComponent = SelectionComponent(selected: bool)

  /** The `u32` time stamp of a stroke's last change. */
  datatype ChronoComponent = ChronoComponent(t: nat)

  datatype RenderComponent = RenderComponent(render: bool)

  function DefaultTrashComponent(): TrashComponent { TrashComponent(false) }

  function DefaultSelectionComponent(): SelectionComponent { SelectionComponent(false) }

  function DefaultChronoComponent(): ChronoComponent { ChronoComponent(0) }

  function DefaultRenderComponent(): RenderComponent { RenderComponent(true) }

  datatype StrokesState = StrokesState(
    strokes: SlotMap<StrokeStyle>,
    trash_components: SlotMap<TrashComponent>,
    selection_components: SlotMap<SelectionComponent>,
    chrono_components: SlotMap<ChronoComponent>,
    render_components: SlotMap<RenderComponent>,
    chrono_counter: nat)

  /** `Sheet`: the whole v0.4 document. */
  datatype Sheet = Sheet(version: string, x: real, y: real, width: real, height: real,
                         strokes_state: StrokesState, format: Format, background: Background)
}
