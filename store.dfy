/**
 * The store snapshot of rnote v0.5 (`rnotev0_5::store::HistoryEntry`) and its construction from the v0.4
 * component store. The stroke column is rewritten slot by slot with `filter_map`: a slot whose stroke fails to
 * convert is dropped, every other slot keeps its version. The trash, selection and chrono columns are copied
 * unchanged, so they stay aligned with the stroke column only while no stroke fails.
 */
module StoreV05 {
  import opened Wrappers
  import opened Slots
  import opened StrokesStateV04
  import StrokesV05

  datatype HistoryEntry = HistoryEntry(
    stroke_components: SlotMap<StrokesV05.Stroke>,
    trash_components: SlotMap<TrashComponent>,
    selection_components: SlotMap<SelectionComponent>,
    chrono_components: SlotMap<ChronoComponent>,
    chrono_counter: nat)

  /** `HistoryEntry::default()`: four empty columns and a zero chrono counter. */
  function DefaultHistoryEntry(): (h: HistoryEntry)
    ensures h.stroke_components == [] && h.trash_components == [] && h.selection_components == []
    ensures h.chrono_components == [] && h.chrono_counter == 0
  {
    HistoryEntry([], [], [], [], 0)
  }

  /** A slot the converter can take: an occupied slot must hold a convertible stroke. */
  predicate SlotConvertible(s: Slot<StrokeStyle>) {
    s.value.Some? ==> StrokesV05.Convertible(s.value.value)
  }

  predicate AllConvertible(slots: SlotMap<StrokeStyle>) {
    forall i :: 0 <= i < |slots| ==> SlotConvertible(slots[i])
  }

  /**
   * The closure of the `filter_map`: an empty slot stays an empty slot; an occupied one keeps its version and
   * holds the converted stroke, unless the conversion gives `None`, which the `?` turns into dropping the slot.
   */
  function ConvertSlot(s: Slot<StrokeStyle>, libs: StrokesV05.Libs): (r: Option<Slot<StrokesV05.Stroke>>)
    requires SlotConvertible(s)
    ensures r.None? <==> s.value.Some? && StrokesV05.StrokeFrom(s.value.value, libs).None?
    ensures r.Some? ==> r.value.version == s.version
    ensures r.Some? && s.value.Some? ==> r.value.value == StrokesV05.StrokeFrom(s.value.value, libs)
    ensures s.value.None? ==> r == Some(Slot(None, s.version))
  {
    if s.value.Some? then
      match StrokesV05.StrokeFrom(s.value.value, libs)
      case Some(stroke) => Some(Slot(Some(stroke), s.version))
      case None => None
    else
      Some(Slot(None, s.version))
  }

  /** `into_iter().filter_map(..).collect()` over the stroke column. */
  function FilterMapSlots(slots: SlotMap<StrokeStyle>, libs: StrokesV05.Libs): SlotMap<StrokesV05.Stroke>
    requires AllConvertible(slots)
  {
    if slots == [] then []
    else
      var n := |slots| - 1;
      FilterMapSlots(slots[..n], libs) + (match ConvertSlot(slots[n], libs) case Some(s) => [s] case None => [])
  }

  /** The indices of the input slots that survive, in order. */
  function Survivors(slots: SlotMap<StrokeStyle>, libs: StrokesV05.Libs): seq<nat>
    requires AllConvertible(slots)
  {
    if slots == [] then []
    else
      var n := |slots| - 1;
      Survivors(slots[..n], libs) + (if ConvertSlot(slots[n], libs).Some? then [n] else [])
  }

  /** The number of slots whose stroke fails to convert. */
  function FailureCount(slots: SlotMap<StrokeStyle>, libs: StrokesV05.Libs): nat
    requires AllConvertible(slots)
  {
    if slots == [] then 0
    else
      var n := |slots| - 1;
      FailureCount(slots[..n], libs) + (if ConvertSlot(slots[n], libs).None? then 1 else 0)
  }

  /**
   * The output column is the surviving slots in their input order: output slot `j` is input slot
   * `Survivors[j]` converted, so it keeps that slot's version; the survivors are strictly increasing, and every
   * slot that converts is among them. The output is as long as the input less the failures.
   */
  lemma {:induction false} FilterMapSurvivors(slots: SlotMap<StrokeStyle>, libs: StrokesV05.Libs)
    requires AllConvertible(slots)
    ensures FailureCount(slots, libs) <= |slots|
    ensures |FilterMapSlots(slots, libs)| == |slots| - FailureCount(slots, libs)
    ensures |Survivors(slots, libs)| == |FilterMapSlots(slots, libs)|
    ensures forall j :: 0 <= j < |Survivors(slots, libs)| ==>
              Survivors(slots, libs)[j] < |slots| && ConvertSlot(slots[Survivors(slots, libs)[j]], libs).Some?
              && FilterMapSlots(slots, libs)[j] == ConvertSlot(slots[Survivors(slots, libs)[j]], libs).value
    ensures forall j, k :: 0 <= j < k < |Survivors(slots, libs)| ==> Survivors(slots, libs)[j] < Survivors(slots, libs)[k]
    ensures forall i :: 0 <= i < |slots| && ConvertSlot(slots[i], libs).Some? ==> i in Survivors(slots, libs)
  {
    if slots != [] {
      var n := |slots| - 1;
      var pre := slots[..n];
      assert forall i :: 0 <= i < n ==> pre[i] == slots[i];
      assert AllConvertible(pre) by {
        forall i | 0 <= i < n ensures SlotConvertible(pre[i]) {
          assert pre[i] == slots[i];
        }
      }
      FilterMapSurvivors(pre, libs);
      var out, surv, c := FilterMapSlots(pre, libs), Survivors(pre, libs), ConvertSlot(slots[n], libs);
      if c.Some? {
        assert FilterMapSlots(slots, libs) == out + [c.value];
        assert Survivors(slots, libs) == surv + [n];
      } else {
        assert FilterMapSlots(slots, libs) == out;
        assert Survivors(slots, libs) == surv;
      }
    }
  }

  /** Every surviving slot keeps the version of the input slot it comes from. */
  lemma VersionsKept(slots: SlotMap<StrokeStyle>, libs: StrokesV05.Libs, j: int)
    requires AllConvertible(slots)
    requires 0 <= j < |FilterMapSlots(slots, libs)|
    ensures |Survivors(slots, libs)| == |FilterMapSlots(slots, libs)| && Survivors(slots, libs)[j] < |slots|
    ensures FilterMapSlots(slots, libs)[j].version == slots[Survivors(slots, libs)[j]].version
  {
    FilterMapSurvivors(slots, libs);
  }

  /** An empty input slot is never dropped: somewhere in the output it is an empty slot of the same version. */
  lemma EmptySlotKept(slots: SlotMap<StrokeStyle>, libs: StrokesV05.Libs, i: int)
    requires AllConvertible(slots)
    requires 0 <= i < |slots| && slots[i].value.None?
    ensures exists j :: 0 <= j < |FilterMapSlots(slots, libs)| && FilterMapSlots(slots, libs)[j] == Slot(None, slots[i].version)
  {
    FilterMapSurvivors(slots, libs);
    var survivors := Survivors(slots, libs);
    assert i in survivors;
    var j :| 0 <= j < |survivors| && survivors[j] == i;
    assert FilterMapSlots(slots, libs)[j] == Slot(None, slots[i].version);
  }

  /** Without a failure nothing is dropped: the output is the input converted slot for slot, index for index. */
  lemma {:induction false} NoFailureKeepsIndices(slots: SlotMap<StrokeStyle>, libs: StrokesV05.Libs)
    requires AllConvertible(slots)
    requires FailureCount(slots, libs) == 0
    ensures |FilterMapSlots(slots, libs)| == |slots|
    ensures forall i :: 0 <= i < |slots| ==>
              ConvertSlot(slots[i], libs).Some? && FilterMapSlots(slots, libs)[i] == ConvertSlot(slots[i], libs).value
  {
    FilterMapSurvivors(slots, libs);
    var survivors := Survivors(slots, libs);
    SurvivorsIdentity(survivors, |slots|);
    forall i | 0 <= i < |slots|
      ensures ConvertSlot(slots[i], libs).Some? && FilterMapSlots(slots, libs)[i] == ConvertSlot(slots[i], libs).value
    {
      assert survivors[i] == i;
    }
  }

  /** A strictly increasing sequence of `n` indices below `n` is `0, 1, ..., n - 1`. */
  lemma {:induction false} SurvivorsIdentity(s: seq<nat>, n: nat)
    requires |s| == n
    requires forall j :: 0 <= j < |s| ==> s[j] < n
    requires forall j, k :: 0 <= j < k < |s| ==> s[j] < s[k]
    ensures forall j :: 0 <= j < |s| ==> s[j] == j
  {
    forall j | 0 <= j < |s| ensures s[j] == j {
      IncreasingLowerBound(s, j);
      IncreasingUpperBound(s, j, n);
    }
  }

  lemma {:induction false} IncreasingLowerBound(s: seq<nat>, j: int)
    requires forall a, b :: 0 <= a < b < |s| ==> s[a] < s[b]
    requires 0 <= j < |s|
    ensures s[j] >= j
    decreases j
  {
    if j > 0 {
      IncreasingLowerBound(s, j - 1);
    }
  }

  lemma {:induction false} IncreasingUpperBound(s: seq<nat>, j: int, n: nat)
    requires forall a :: 0 <= a < |s| ==> s[a] < n
    requires forall a, b :: 0 <= a < b < |s| ==> s[a] < s[b]
    requires |s| == n && 0 <= j < |s|
    ensures s[j] <= j
    decreases |s| - j
  {
    if j < |s| - 1 {
      IncreasingUpperBound(s, j + 1, n);
    }
  }

  /**
   * `From<StrokesState> for HistoryEntry`: the stroke column rewritten by `filter_map`, the other three columns
   * and the counter copied; the v0.4 render column has no counterpart and is dropped.
   */
  function FromStrokesState(ss: StrokesState, libs: StrokesV05.Libs): (h: HistoryEntry)
    requires AllConvertible(ss.strokes)
    ensures h.stroke_components == FilterMapSlots(ss.strokes, libs)
    ensures h.trash_components == ss.trash_components && h.selection_components == ss.selection_components
    ensures h.chrono_components == ss.chrono_components && h.chrono_counter == ss.chrono_counter
  {
    HistoryEntry(FilterMapSlots(ss.strokes, libs), ss.trash_components, ss.selection_components,
                 ss.chrono_components, ss.chrono_counter)
  }

  /** The v0.4 columns the v0.5 entry keeps are of one length. */
  predicate AlignedV04(ss: StrokesState) {
    |ss.trash_components| == |ss.strokes| && |ss.selection_components| == |ss.strokes|
    && |ss.chrono_components| == |ss.strokes|
  }

  /** The four columns of an entry are of one length. */
  predicate Aligned(h: HistoryEntry) {
    |h.trash_components| == |h.stroke_components| && |h.selection_components| == |h.stroke_components|
    && |h.chrono_components| == |h.stroke_components|
  }

  /** Starting from aligned columns, the entry is aligned exactly when no stroke failed to convert. */
  lemma AlignedIffNoFailure(ss: StrokesState, libs: StrokesV05.Libs)
    requires AllConvertible(ss.strokes) && AlignedV04(ss)
    ensures Aligned(FromStrokesState(ss, libs)) <==> FailureCount(ss.strokes, libs) == 0
  {
    FilterMapSurvivors(ss.strokes, libs);
  }

  /** The render column plays no part: states differing only in it give the same entry. */
  lemma RenderComponentsDropped(ss: StrokesState, render: SlotMap<RenderComponent>, libs: StrokesV05.Libs)
    requires AllConvertible(ss.strokes)
    ensures FromStrokesState(ss.(render_components := render), libs) == FromStrokesState(ss, libs)
  {
  }
}
