/**
 * The brush stroke of rnote v0.5 (`rnotev0_5::stroke::brushstroke`): a pen path and a style, and its conversion
 * from the v0.4 brush stroke, which turns the element list into a dot or a chain of lines.
 */
module BrushStrokesV05 {
  import opened Wrappers
  import opened PenPaths
  import opened Styles
  import StrokesV04

  datatype BrushStroke = BrushStroke(path: PenPath, style: Style)

  /** `BrushStroke::IMAGES_SEGMENTS_THRESHOLD` */
  const IMAGES_SEGMENTS_THRESHOLD: real := 1000.0

  /** `from_penpath`: `None` for an empty path, otherwise the path and the style unchanged. */
  function FromPenpath(path: PenPath, style: Style): (r: Option<BrushStroke>)
    ensures r.None? <==> |path.segments| == 0
    ensures r.Some? ==> r.value.path == path && r.value.style == style
  {
    if |path.segments| == 0 then None else Some(BrushStroke(path, style))
  }

  /** `new`: the one-segment path, which `from_penpath` always accepts, so the `unwrap` never panics. */
  function New(segment: Segment, style: Style): (b: BrushStroke)
    ensures b.path.segments == [segment] && b.style == style
  {
    var path := NewWSegment(segment);
    FromPenpath(path, style).value
  }

  /** `BrushStroke::default()`: a dot at the default element, in the default style. */
  function DefaultBrushStroke(lib: OptionsLib): (b: BrushStroke)
    ensures b.path.segments == [Dot(DefaultElement())] && b.style == DefaultStyle(lib)
  {
    New(Dot(DefaultElement()), DefaultStyle(lib))
  }

  /**
   * `push_segment`: the segment goes to the back of the path; the earlier segments and the style stay. The
   * `&mut self` update is modelled as taking the old stroke and returning the new one.
   */
  method PushSegment(self: BrushStroke, segment: Segment) returns (r: BrushStroke)
    ensures r.path.segments == self.path.segments + [segment]
    ensures |r.path.segments| == |self.path.segments| + 1 && r.path.segments[|self.path.segments|] == segment
    ensures r.path.segments[..|self.path.segments|] == self.path.segments && r.style == self.style
  {
    r := self.(path := PenPath(self.path.segments + [segment]));
  }

  /** A stroke that went through `from_penpath` stays non-empty whatever is pushed onto it. */
  lemma PushKeepsNonEmpty(path: PenPath, style: Style, segment: Segment)
    requires FromPenpath(path, style).Some?
    ensures FromPenpath(PenPath(path.segments + [segment]), style).Some?
  {
  }

  // Conversion from v0.4

  /** Marker and solid strokes become smooth, textured strokes stay textured; the options go through `From`. */
  function ConvertStyle(style: StrokesV04.BrushStrokeStyle, lib: OptionsLib): (s: Style)
    ensures !s.Rough?
    ensures s.Textured? <==> style.Textured?
    ensures style.Textured? ==> s.textured == FromV04TexturedOptions(style.textured_options)
    ensures !style.Textured? ==> s.smooth == lib.smoothFromV04(style.options)
  {
    match style
    case Marker(options) => Smooth(lib.smoothFromV04(options))
    case Solid(options) => Smooth(lib.smoothFromV04(options))
    case Textured(options) => Textured(FromV04TexturedOptions(options))
  }

  /** Every v0.4 element converted by `From`, in order. */
  function ConvertElements(elements: seq<StrokesV04.Element>): (r: seq<Element>)
    ensures |r| == |elements|
  {
    seq(|elements|, i requires 0 <= i < |elements| => FromV04Element(elements[i]))
  }

  /** The line chain of a run of elements: a degenerate first line at the first element, then one line per step. */
  function ChainSegments(es: seq<Element>): seq<Segment>
    requires |es| > 0
  {
    seq(|es|, i requires 0 <= i < |es| => if i == 0 then Line(es[0], es[0]) else Line(es[i - 1], es[i]))
  }

  /** The path `From<v0.4 BrushStroke>` builds: a single dot for one element, otherwise a chain of lines. */
  function ConvertedPath(elements: seq<StrokesV04.Element>): PenPath
    requires |elements| > 0
  {
    var es := ConvertElements(elements);
    if |elements| == 1 then FromIter([Dot(es[0])]) else PenPath(ChainSegments(es))
  }

  /** The stroke `From<v0.4 BrushStroke>` builds. */
  function ConvertedBrushStroke(bs: StrokesV04.BrushStroke, lib: OptionsLib): BrushStroke
    requires |bs.elements| > 0
  {
    BrushStroke(ConvertedPath(bs.elements), ConvertStyle(bs.style, lib))
  }

  /**
   * `From<v0.4 BrushStroke>`, step by step as the source does it: one element gives a dot; otherwise a first line
   * from the first element to itself, then a `while let` loop that joins the last element to the next. An empty
   * element list panics at the first `unwrap`, so the caller must supply one element at least.
   */
  method FromV04(bs: StrokesV04.BrushStroke, lib: OptionsLib) returns (r: BrushStroke)
    requires |bs.elements| > 0
    ensures r == ConvertedBrushStroke(bs, lib)
  {
    var style := ConvertStyle(bs.style, lib);
    var path: PenPath;
    if |bs.elements| == 1 {
      var elem := bs.elements[0];
      path := FromIter([Dot(FromV04Element(elem))]);
    } else {
      var segs: seq<Segment> := [];
      var first := FromV04Element(bs.elements[0]);
      var last: Option<Element> := Some(first);
      segs := segs + [Line(first, first)];
      var i := 1;
      while i < |bs.elements|
        invariant 1 <= i <= |bs.elements|
        invariant segs == ChainSegments(ConvertElements(bs.elements))[..i]
        invariant last == Some(FromV04Element(bs.elements[i - 1]))
      {
        var elem := FromV04Element(bs.elements[i]);
        var lastElem := last.value;
        segs := segs + [Line(lastElem, elem)];
        last := Some(elem);
        i := i + 1;
      }
      path := PenPath(segs);
    }
    r := BrushStroke(path, style);
  }

  /**
   * The converted path has one segment per element, never a Bezier; it is a single dot exactly when there is one
   * element, and its segments chain: each one ends where the next starts.
   */
  lemma ConvertedPathShape(elements: seq<StrokesV04.Element>)
    requires |elements| > 0
    ensures |ConvertedPath(elements).segments| == |elements|
    ensures ConvertedPath(elements).segments[0].Dot? <==> |elements| == 1
    ensures |elements| >= 2 ==> forall k :: 0 <= k < |elements| ==> ConvertedPath(elements).segments[k].Line?
    ensures forall k :: 0 <= k < |elements| - 1 ==>
              End(ConvertedPath(elements).segments[k]) == Start(ConvertedPath(elements).segments[k + 1])
    ensures Start(ConvertedPath(elements).segments[0]) == FromV04Element(elements[0])
  {
  }

  /** Segment `k` of the converted path ends at element `k`: the segment ends list the input in order. */
  lemma ConvertedPathEnds(elements: seq<StrokesV04.Element>, k: int)
    requires 0 <= k < |elements|
    ensures End(ConvertedPath(elements).segments[k]) == FromV04Element(elements[k])
  {
  }

  /**
   * The elements the converted path gives back: the single element for a dot; for a chain, twice as many as the
   * input, position `2k + 1` holding element `k` and position `2k` the element before it (element 0 for k = 0).
   */
  lemma ConvertedPathElements(elements: seq<StrokesV04.Element>, k: int)
    requires 0 <= k < |elements|
    ensures |elements| == 1 ==> IntoElements(ConvertedPath(elements)) == [FromV04Element(elements[0])]
    ensures |elements| >= 2 ==> |IntoElements(ConvertedPath(elements))| == 2 * |elements|
    ensures |elements| >= 2 ==> IntoElements(ConvertedPath(elements))[2 * k + 1] == FromV04Element(elements[k])
    ensures |elements| >= 2 ==>
              IntoElements(ConvertedPath(elements))[2 * k] == FromV04Element(elements[if k == 0 then 0 else k - 1])
  {
    var es := ConvertElements(elements);
    if |elements| == 1 {
      NewWDotElements(es[0]);
      assert ConvertedPath(elements) == NewWDot(es[0]);
    } else {
      var segs := ChainSegments(es);
      assert ConvertedPath(elements).segments == segs;
      ElementsOfPairs(segs, k);
    }
  }

  /** The converted stroke is never empty, so `from_penpath` gives it back unchanged. */
  lemma ConvertedIsNonEmpty(bs: StrokesV04.BrushStroke, lib: OptionsLib)
    requires |bs.elements| > 0
    ensures FromPenpath(ConvertedPath(bs.elements), ConvertStyle(bs.style, lib)) == Some(ConvertedBrushStroke(bs, lib))
  {
    ConvertedPathShape(bs.elements);
  }
}
