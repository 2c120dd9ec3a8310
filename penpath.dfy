/**
 * Pen paths of rnote v0.5 (`rnotev0_5::penpath` with its `element` and `segment` sub-modules): pen input
 * elements, the four kinds of path segment, and paths as sequences of segments.
 */
module PenPaths {
  import opened Vectors
  import opened Geometry
  import opened Transforms
  import opened Wrappers
  import StrokesV04

  // ---------------------------------------------------------------------------------------------
  // Element

  /** A pen input element; its pressure is meant to lie in `[0, 1]`. */
  datatype Element = Element(pos: Vec2, pressure: real)

  const PRESSURE_DEFAULT: real := 0.5

  /** `f64::clamp(x, lo, hi)` for `lo <= hi`. */
  function Clamp(x: real, lo: real, hi: real): (r: real)
    requires lo <= hi
    ensures lo <= r <= hi
    ensures lo <= x <= hi ==> r == x
    ensures x < lo ==> r == lo
    ensures x > hi ==> r == hi
  {
    if x < lo then lo else if x > hi then hi else x
  }

  /** `Element::new`: the position as given, the pressure clamped into `[0, 1]`. */
  function NewElement(pos: Vec2, pressure: real): (e: Element)
    ensures e.pos == pos && 0.0 <= e.pressure <= 1.0
    ensures 0.0 <= pressure <= 1.0 ==> e.pressure == pressure
  {
    Element(pos, Clamp(pressure, 0.0, 1.0))
  }

  /** `Element::default()`: at the origin with the default pressure. */
  function DefaultElement(): (e: Element)
    ensures e.pos == Zero() && e.pressure == PRESSURE_DEFAULT
  {
    NewElement(Vec2(0.0, 0.0), PRESSURE_DEFAULT)
  }

  /**
   * `set_pressure_clamped` on `&mut self`: the element is a `Copy` value, so the update is modelled as a
   * method that takes the old element and returns the new one.
   */
  method SetPressureClamped(self: Element, pressure: real) returns (r: Element)
    ensures r.pos == self.pos && 0.0 <= r.pressure <= 1.0
    ensures 0.0 <= pressure <= 1.0 ==> r.pressure == pressure
    ensures pressure < 0.0 ==> r.pressure == 0.0
    ensures pressure > 1.0 ==> r.pressure == 1.0
  {
    r := self;
    r := r.(pressure := Clamp(pressure, 0.0, 1.0));
  }

  /** `filter_by_bounds`: true exactly when the position lies outside the closed box. */
  function FilterByBounds(e: Element, filterBounds: AABB): (outside: bool)
    ensures outside <==> (e.pos.x < filterBounds.mins.x || e.pos.x > filterBounds.maxs.x ||
                          e.pos.y < filterBounds.mins.y || e.pos.y > filterBounds.maxs.y)
  {
    !ContainsPoint(filterBounds, e.pos)
  }

  /** The element with its position mapped by `transform` and its pressure kept. */
  function Transformed(e: Element, transform: Affine2): (r: Element)
    ensures r.pos == AffineApply(transform, e.pos) && r.pressure == e.pressure
  {
    e.(pos := AffineApply(transform, e.pos))
  }

  /** Transforming by `f` and then by `g` is transforming by their product `g * f`. */
  lemma TransformedComposes(e: Element, f: Affine2, g: Affine2)
    ensures Transformed(Transformed(e, f), g) == Transformed(e, Compose(g, f))
  {
    ComposeApply(g, f, e.pos);
  }

  /** `transform_by` on `&mut self`, modelled on the `Copy` value. */
  method TransformBy(self: Element, transform: Affine2) returns (r: Element)
    ensures r == Transformed(self, transform)
  {
    r := self;
    r := r.(pos := AffineApply(transform, r.pos));
  }

  /** `transform_elements`: every element of the deque, updated in place by the same transform. */
  method TransformElements(dataEntries: array<Element>, transform: Affine2)
    modifies dataEntries
    ensures forall i :: 0 <= i < dataEntries.Length ==> dataEntries[i] == Transformed(old(dataEntries[i]), transform)
    ensures forall i :: 0 <= i < dataEntries.Length ==> dataEntries[i].pressure == old(dataEntries[i].pressure)
  {
    var k := 0;
    while k < dataEntries.Length
      invariant 0 <= k <= dataEntries.Length
      invariant forall i :: 0 <= i < k ==> dataEntries[i] == Transformed(old(dataEntries[i]), transform)
      invariant forall i :: k <= i < dataEntries.Length ==> dataEntries[i] == old(dataEntries[i])
    {
      var element := TransformBy(dataEntries[k], transform);
      dataEntries[k] := element;
      k := k + 1;
    }
  }

  /** `From<v0.4 Element>`: position and pressure copied verbatim (no clamping); the timestamp is dropped. */
  function FromV04Element(elem: StrokesV04.Element): (e: Element)
    ensures e.pos == elem.inputdata.pos && e.pressure == elem.inputdata.pressure
  {
    var inputdata := elem.inputdata;
    Element(inputdata.pos, inputdata.pressure)
  }

  /** The conversion takes the v0.4 default element to the v0.5 default element. */
  lemma FromV04ElementDefault()
    ensures FromV04Element(StrokesV04.DefaultElement()) == DefaultElement()
  {
  }

  /** Unlike `Element::new`, the conversion lets an out-of-range pressure through. */
  lemma FromV04ElementDoesNotClamp()
    ensures FromV04Element(StrokesV04.Element(StrokesV04.InputData(Zero(), 2.0), None)).pressure == 2.0
    ensures NewElement(Zero(), 2.0).pressure == 1.0
  {
  }

  // ---------------------------------------------------------------------------------------------
  // Segment

  datatype Segment =
    | Dot(element: Element)
    | Line(start: Element, end: Element)
    | QuadBez(start: Element, cp: Vec2, end: Element)
    | CubBez(start: Element, cp1: Vec2, cp2: Vec2, end: Element)

  /** `Segment::start`: the dot's element, otherwise the `start` field. */
  function Start(s: Segment): (e: Element)
    ensures s.Dot? ==> e == s.element
    ensures !s.Dot? ==> e == s.start
  {
    match s
    case Dot(element) => element
    case Line(start, _) => start
    case QuadBez(start, _, _) => start
    case CubBez(start, _, _, _) => start
  }

  /** `Segment::end`: the dot's element, otherwise the `end` field. */
  function End(s: Segment): (e: Element)
    ensures s.Dot? ==> e == s.element
    ensures !s.Dot? ==> e == s.end
  {
    match s
    case Dot(element) => element
    case Line(_, end) => end
    case QuadBez(_, _, end) => end
    case CubBez(_, _, _, end) => end
  }

  /** Replaces the control points of a Bezier segment; other segments are returned unchanged. */
  function WithControlPoints(s: Segment, cp1: Vec2, cp2: Vec2): Segment {
    match s
    case QuadBez(start, _, end) => QuadBez(start, cp1, end)
    case CubBez(start, _, _, end) => CubBez(start, cp1, cp2, end)
    case _ => s
  }

  /** A dot starts and ends at its element; control points never influence `start`/`end`. */
  lemma StartEndIgnoreControlPoints(s: Segment, cp1: Vec2, cp2: Vec2)
    ensures s.Dot? ==> Start(s) == End(s)
    ensures Start(WithControlPoints(s, cp1, cp2)) == Start(s) && End(WithControlPoints(s, cp1, cp2)) == End(s)
  {
  }

  // ---------------------------------------------------------------------------------------------
  // PenPath

  /** `PenPath(VecDeque<Segment>)`: the segments front to back. */
  datatype PenPath = PenPath(segments: seq<Segment>)

  /** `new_w_segment`: the path holding exactly the given segment. */
  function NewWSegment(segment: Segment): (p: PenPath)
    ensures p.segments == [segment]
  {
    var segmentVec := [];
    PenPath(segmentVec + [segment])
  }

  /** `new_w_dot` */
  function NewWDot(element: Element): (p: PenPath)
    ensures p.segments == [Dot(element)]
  {
    NewWSegment(Dot(element))
  }

  /** The elements a single segment contributes to `into_elements`. */
  function SegmentElements(s: Segment): (r: seq<Element>)
    ensures s.Dot? ==> r == [s.element]
    ensures !s.Dot? ==> r == [s.start, s.end]
  {
    match s
    case Dot(pos) => [pos]
    case Line(start, end) => [start, end]
    case QuadBez(start, _, end) => [start, end]
    case CubBez(start, _, _, end) => [start, end]
  }

  /** The elements of a sequence of segments, segment after segment. */
  function ElementsOf(segments: seq<Segment>): seq<Element> {
    if segments == [] then [] else ElementsOf(segments[..|segments| - 1]) + SegmentElements(segments[|segments| - 1])
  }

  /** The number of dot segments. */
  function DotCount(segments: seq<Segment>): nat {
    if segments == [] then 0
    else DotCount(segments[..|segments| - 1]) + (if segments[|segments| - 1].Dot? then 1 else 0)
  }

  /**
   * `into_elements`: one element per dot, `start` and `end` for every other segment, in path order. The list
   * opens with the first segment's start and closes with the last segment's end; in a path without dots,
   * positions `2k` and `2k + 1` hold the start and the end of segment `k`.
   */
  function IntoElements(p: PenPath): (r: seq<Element>)
    ensures |r| == DotCount(p.segments) + 2 * (|p.segments| - DotCount(p.segments))
    ensures p.segments != [] ==> |r| > 0 && r[0] == Start(p.segments[0]) && r[|r| - 1] == End(p.segments[|p.segments| - 1])
    ensures (forall i :: 0 <= i < |p.segments| ==> !p.segments[i].Dot?) ==>
              forall k :: 0 <= k < |p.segments| ==> 2 * k + 1 < |r| && r[2 * k] == Start(p.segments[k]) && r[2 * k + 1] == End(p.segments[k])
  {
    ElementsLength(p.segments);
    ElementsOfEnds(p.segments);
    ElementsOfAllPairs(p.segments);
    ElementsOf(p.segments)
  }

  /** The elements of a non-empty run of segments open with its first start and close with its last end. */
  lemma {:induction false} ElementsOfEnds(segments: seq<Segment>)
    ensures segments != [] ==> |ElementsOf(segments)| > 0
    ensures segments != [] ==> ElementsOf(segments)[0] == Start(segments[0])
    ensures segments != [] ==> ElementsOf(segments)[|ElementsOf(segments)| - 1] == End(segments[|segments| - 1])
  {
    if segments != [] {
      var n := |segments| - 1;
      ElementsOfEnds(segments[..n]);
      if n > 0 {
        assert segments[..n][0] == segments[0];
      }
    }
  }

  /** `ElementsOfPairs` for every segment at once. */
  lemma ElementsOfAllPairs(segments: seq<Segment>)
    ensures (forall i :: 0 <= i < |segments| ==> !segments[i].Dot?) ==>
              forall k :: 0 <= k < |segments| ==> (2 * k + 1 < |ElementsOf(segments)|
                && ElementsOf(segments)[2 * k] == Start(segments[k]) && ElementsOf(segments)[2 * k + 1] == End(segments[k]))
  {
    if forall i :: 0 <= i < |segments| ==> !segments[i].Dot? {
      forall k | 0 <= k < |segments|
        ensures 2 * k + 1 < |ElementsOf(segments)|
        ensures ElementsOf(segments)[2 * k] == Start(segments[k]) && ElementsOf(segments)[2 * k + 1] == End(segments[k])
      {
        ElementsOfPairs(segments, k);
      }
    }
  }

  lemma {:induction false} ElementsLength(segments: seq<Segment>)
    ensures DotCount(segments) <= |segments|
    ensures |ElementsOf(segments)| == DotCount(segments) + 2 * (|segments| - DotCount(segments))
  {
    if segments != [] {
      ElementsLength(segments[..|segments| - 1]);
    }
  }

  /** The elements of two consecutive runs of segments are the elements of each, one after the other. */
  lemma {:induction false} ElementsOfAppend(a: seq<Segment>, b: seq<Segment>)
    ensures ElementsOf(a + b) == ElementsOf(a) + ElementsOf(b)
    decreases |b|
  {
    if b == [] {
      assert a + b == a;
    } else {
      var b' := b[..|b| - 1];
      assert (a + b)[..|a + b| - 1] == a + b';
      assert (a + b)[|a + b| - 1] == b[|b| - 1];
      ElementsOfAppend(a, b');
    }
  }

  /** Bezier control points never reach `into_elements`. */
  lemma {:induction false} ElementsIgnoreControlPoints(segments: seq<Segment>, cp1: seq<Vec2>, cp2: seq<Vec2>)
    requires |cp1| == |segments| && |cp2| == |segments|
    ensures ElementsOf(segments) == ElementsOf(seq(|segments|, i requires 0 <= i < |segments| =>
                                                      WithControlPoints(segments[i], cp1[i], cp2[i])))
  {
    var replaced := seq(|segments|, i requires 0 <= i < |segments| => WithControlPoints(segments[i], cp1[i], cp2[i]));
    if segments != [] {
      var n := |segments| - 1;
      ElementsIgnoreControlPoints(segments[..n], cp1[..n], cp2[..n]);
      assert replaced[..n] == seq(n, i requires 0 <= i < n => WithControlPoints(segments[..n][i], cp1[..n][i], cp2[..n][i]));
      assert SegmentElements(replaced[n]) == SegmentElements(segments[n]);
    }
  }

  /**
   * In a path of two-element segments the elements interleave: position `2k` holds the start of segment `k`
   * and position `2k + 1` its end.
   */
  lemma {:induction false} ElementsOfPairs(segments: seq<Segment>, k: nat)
    requires forall i :: 0 <= i < |segments| ==> !segments[i].Dot?
    requires k < |segments|
    ensures |ElementsOf(segments)| == 2 * |segments|
    ensures ElementsOf(segments)[2 * k] == Start(segments[k])
    ensures ElementsOf(segments)[2 * k + 1] == End(segments[k])
  {
    var n := |segments| - 1;
    ElementsLength(segments);
    NoDots(segments);
    ElementsLength(segments[..n]);
    NoDots(segments[..n]);
    if k < n {
      ElementsOfPairs(segments[..n], k);
    }
  }

  lemma {:induction false} NoDots(segments: seq<Segment>)
    requires forall i :: 0 <= i < |segments| ==> !segments[i].Dot?
    ensures DotCount(segments) == 0
  {
    if segments != [] {
      NoDots(segments[..|segments| - 1]);
    }
  }

  /** `FromIterator<Segment>`: the path of the segments in iteration order. */
  function FromIter(segments: seq<Segment>): (p: PenPath)
    ensures p.segments == segments
    ensures IntoElements(p) == ElementsOf(segments)
  {
    PenPath(segments)
  }

  /** Collecting a path's own segments gives the path back. */
  lemma FromIterRoundTrip(p: PenPath)
    ensures FromIter(p.segments) == p
  {
  }

  /** A path made by `new_w_dot` yields exactly its element. */
  lemma NewWDotElements(element: Element)
    ensures IntoElements(NewWDot(element)) == [element]
  {
    assert NewWDot(element).segments[..0] == [];
  }
}
