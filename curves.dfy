/**
 * The curve shapes of rnote v0.5 (`rnotev0_5::shapes::{line, quadbez, cubbez}`): lines, quadratic and cubic
 * Bezier curves, their evaluation, subdivision and approximation by lines.
 *
 * nalgebra evaluates vector arithmetic componentwise; every polynomial below is written once for one coordinate
 * (a function on `real`) and applied to both coordinates, and the identities between them are proved on the
 * coordinate functions.
 */
module Curves {
  import opened Vectors
  import opened Wrappers
  import ShapesV04
  import Geometry

  // ---------------------------------------------------------------------------------------------
  // Line

  datatype Line = Line(start: Vec2, end: Vec2)

  function DefaultLine(): Line { Line(Zero(), Zero()) }

  /** `From<v0.4 Line>`: both ends copied. */
  function FromV04Line(line: ShapesV04.Line): (l: Line)
    ensures l.start == line.start && l.end == line.end
  {
    Line(line.start, line.end)
  }

  /** `f64::from(i) / f64::from(n)`: the `i`-th of `n` evenly spaced parameters. */
  function Param(i: int, n: int): real
    requires n > 0
  {
    i as real / n as real
  }

  lemma ParamBounds(n: int)
    requires n > 0
    ensures Param(0, n) == 0.0 && Param(n, n) == 1.0
    ensures forall i {:trigger Param(i, n)} :: 0 <= i <= n ==> 0.0 <= Param(i, n) <= 1.0
  {
  }

  /** Consecutive lines join: each ends where the next starts. */
  predicate Chained(lines: seq<Line>) {
    forall i :: 0 <= i < |lines| - 1 ==> lines[i].end == lines[i + 1].start
  }

  /** `Line::split(n_splits)`: `n_splits` consecutive pieces of the line, none for `n_splits <= 0`. */
  function SplitLine(line: Line, nSplits: int): (r: seq<Line>)
    ensures |r| == if nSplits <= 0 then 0 else nSplits
    ensures Chained(r)
    ensures nSplits >= 1 ==> r[0].start == line.start && r[|r| - 1].end == line.end
  {
    if nSplits <= 0 then []
    else
      ParamBounds(nSplits);
      seq(nSplits, i requires 0 <= i < nSplits =>
            Line(Lerp(line.start, line.end, Param(i, nSplits)), Lerp(line.start, line.end, Param(i + 1, nSplits))))
  }

  /** Every piece of a split lies on the line: its ends are points `lerp(start, end, t)` with `0 <= t <= 1`. */
  lemma SplitLineOnLine(line: Line, nSplits: int, i: int)
    requires 0 <= i < nSplits
    ensures exists t :: 0.0 <= t <= 1.0 && SplitLine(line, nSplits)[i].start == Lerp(line.start, line.end, t)
    ensures exists t :: 0.0 <= t <= 1.0 && SplitLine(line, nSplits)[i].end == Lerp(line.start, line.end, t)
  {
    ParamBounds(nSplits);
    var s, e := Param(i, nSplits), Param(i + 1, nSplits);
    assert SplitLine(line, nSplits)[i].start == Lerp(line.start, line.end, s);
    assert SplitLine(line, nSplits)[i].end == Lerp(line.start, line.end, e);
  }

  /** The lines joining consecutive points of `points`. */
  function Chords(points: seq<Vec2>): (r: seq<Line>)
    ensures |r| == if |points| == 0 then 0 else |points| - 1
    ensures Chained(r)
    ensures forall i :: 0 <= i < |r| ==> r[i] == Line(points[i], points[i + 1])
  {
    if |points| == 0 then [] else seq(|points| - 1, i requires 0 <= i < |points| - 1 => Line(points[i], points[i + 1]))
  }

  // ---------------------------------------------------------------------------------------------
  // Quadratic Bezier

  datatype QuadraticBezier = QuadraticBezier(start: Vec2, cp: Vec2, end: Vec2)

  /** One coordinate of `quadbez_coeff_a`: `p2 - 2 p1 + p0`. */
  function CoeffA(p0: real, p1: real, p2: real): real { p2 - 2.0 * p1 + p0 }

  /** One coordinate of `quadbez_coeff_b`: `2 p1 - 2 p0`. */
  function CoeffB(p0: real, p1: real): real { 2.0 * p1 - 2.0 * p0 }

  /** One coordinate of `quadbez_calc`: `a t^2 + b t + c`, with `c = p0`. */
  function QuadPoly(p0: real, p1: real, p2: real, t: real): real {
    CoeffA(p0, p1, p2) * (t * t) + CoeffB(p0, p1) * t + p0
  }

  /** `quadbez_coeff_a` */
  function QuadbezCoeffA(p0: Vec2, p1: Vec2, p2: Vec2): Vec2 {
    Vec2(CoeffA(p0.x, p1.x, p2.x), CoeffA(p0.y, p1.y, p2.y))
  }

  /** `quadbez_coeff_b` */
  function QuadbezCoeffB(p0: Vec2, p1: Vec2): Vec2 { Vec2(CoeffB(p0.x, p1.x), CoeffB(p0.y, p1.y)) }

  /** `quadbez_coeff_c` */
  function QuadbezCoeffC(p0: Vec2): Vec2 { p0 }

  /** `quadbez_calc`: the point of the curve at `t`. */
  function QuadbezCalc(p0: Vec2, p1: Vec2, p2: Vec2, t: real): Vec2 {
    Vec2(QuadPoly(p0.x, p1.x, p2.x, t), QuadPoly(p0.y, p1.y, p2.y, t))
  }

  /** `quadbez_calc` is `a * t^2 + b * t + c` in vector arithmetic, with the three coefficient functions. */
  lemma QuadbezCalcPolynomialForm(p0: Vec2, p1: Vec2, p2: Vec2, t: real)
    ensures QuadbezCalc(p0, p1, p2, t)
         == Add(Add(Scale(QuadbezCoeffA(p0, p1, p2), t * t), Scale(QuadbezCoeffB(p0, p1), t)), QuadbezCoeffC(p0))
  {
  }

  /** One coordinate of the Bernstein form `(1-t)^2 p0 + 2 t (1-t) p1 + t^2 p2`. */
  function QuadBernstein(p0: real, p1: real, p2: real, t: real): real {
    (1.0 - t) * (1.0 - t) * p0 + 2.0 * t * (1.0 - t) * p1 + t * t * p2
  }

  lemma QuadPolyIsBernstein(p0: real, p1: real, p2: real, t: real)
    ensures QuadPoly(p0, p1, p2, t) == QuadBernstein(p0, p1, p2, t)
  {
  }

  /**
   * `quadbez_calc` is the quadratic Bezier curve of its three points: it agrees with the Bernstein form, starts
   * at `p0` for `t = 0` and ends at `p2` for `t = 1`.
   */
  lemma QuadbezCalcBernstein(p0: Vec2, p1: Vec2, p2: Vec2, t: real)
    ensures QuadbezCalc(p0, p1, p2, t) == Vec2(QuadBernstein(p0.x, p1.x, p2.x, t), QuadBernstein(p0.y, p1.y, p2.y, t))
    ensures QuadbezCalc(p0, p1, p2, 0.0) == p0 && QuadbezCalc(p0, p1, p2, 1.0) == p2
  {
    QuadPolyIsBernstein(p0.x, p1.x, p2.x, t);
    QuadPolyIsBernstein(p0.y, p1.y, p2.y, t);
  }

  /** One coordinate of `quad_bezier_derive_coeff_a`: `2 p2 - 4 p1 + 2 p0`. */
  function DeriveCoeffA(p0: real, p1: real, p2: real): real { 2.0 * p2 - 4.0 * p1 + 2.0 * p0 }

  /** One coordinate of `quadbez_derive_coeff_b`: `2 p1 - 2 p0`. */
  function DeriveCoeffB(p0: real, p1: real): real { 2.0 * p1 - 2.0 * p0 }

  /** One coordinate of `quadbez_derive_calc`: `a' t + b'`. */
  function QuadDerivePoly(p0: real, p1: real, p2: real, t: real): real {
    DeriveCoeffA(p0, p1, p2) * t + DeriveCoeffB(p0, p1)
  }

  /** `quad_bezier_derive_coeff_a` */
  function QuadBezierDeriveCoeffA(p0: Vec2, p1: Vec2, p2: Vec2): Vec2 {
    Vec2(DeriveCoeffA(p0.x, p1.x, p2.x), DeriveCoeffA(p0.y, p1.y, p2.y))
  }

  /** `quadbez_derive_coeff_b` */
  function QuadbezDeriveCoeffB(p0: Vec2, p1: Vec2): Vec2 { Vec2(DeriveCoeffB(p0.x, p1.x), DeriveCoeffB(p0.y, p1.y)) }

  /** `quadbez_derive_calc`: the derivative of the curve at `t`. */
  function QuadbezDeriveCalc(p0: Vec2, p1: Vec2, p2: Vec2, t: real): Vec2 {
    Vec2(QuadDerivePoly(p0.x, p1.x, p2.x, t), QuadDerivePoly(p0.y, p1.y, p2.y, t))
  }

  /** `quadbez_derive_calc` is `a' * t + b'` in vector arithmetic. */
  lemma QuadbezDeriveCalcPolynomialForm(p0: Vec2, p1: Vec2, p2: Vec2, t: real)
    ensures QuadbezDeriveCalc(p0, p1, p2, t) == Add(Scale(QuadBezierDeriveCoeffA(p0, p1, p2), t), QuadbezDeriveCoeffB(p0, p1))
  {
  }

  /** One coordinate of the expansion `calc(t) + h derive(t) + h^2 a` around `t`. */
  function QuadExpansion(p0: real, p1: real, p2: real, t: real, h: real): real {
    (QuadPoly(p0, p1, p2, t) + h * QuadDerivePoly(p0, p1, p2, t)) + (h * h) * CoeffA(p0, p1, p2)
  }

  lemma QuadExpansionExact(p0: real, p1: real, p2: real, t: real, h: real)
    ensures QuadPoly(p0, p1, p2, t + h) == QuadExpansion(p0, p1, p2, t, h)
  {
  }

  /**
   * `quadbez_derive_calc` is the derivative of `quadbez_calc`: for every step `h`,
   * `calc(t + h) = calc(t) + h * derive(t) + h^2 * a` exactly, so the difference quotient tends to `derive(t)`.
   */
  lemma QuadbezDeriveIsDerivative(p0: Vec2, p1: Vec2, p2: Vec2, t: real, h: real)
    ensures QuadbezCalc(p0, p1, p2, t + h)
         == Vec2(QuadExpansion(p0.x, p1.x, p2.x, t, h), QuadExpansion(p0.y, p1.y, p2.y, t, h))
  {
    QuadExpansionExact(p0.x, p1.x, p2.x, t, h);
    QuadExpansionExact(p0.y, p1.y, p2.y, t, h);
  }

  /** The derivative at the ends points along the control polygon: `2 (cp - start)` and `2 (end - cp)`. */
  lemma QuadbezDeriveAtEnds(p0: Vec2, p1: Vec2, p2: Vec2)
    ensures QuadbezDeriveCalc(p0, p1, p2, 0.0) == Scale(Sub(p1, p0), 2.0)
    ensures QuadbezDeriveCalc(p0, p1, p2, 1.0) == Scale(Sub(p2, p1), 2.0)
  {
  }

  /** `quadbez_calc_offset_dist_at_t`: linear interpolation between the two offsets. */
  function QuadbezCalcOffsetDistAtT(q: QuadraticBezier, startOffsetDist: real, endOffsetDist: real, t: real): (d: real)
    ensures t == 0.0 ==> d == startOffsetDist
    ensures t == 1.0 ==> d == endOffsetDist
  {
    startOffsetDist + (endOffsetDist - startOffsetDist) * t
  }

  /** For `t` in `[0, 1]` the offset stays between the two given offsets, whichever is the larger. */
  lemma OffsetDistBetween(q: QuadraticBezier, startOffsetDist: real, endOffsetDist: real, t: real)
    requires 0.0 <= t <= 1.0
    ensures startOffsetDist <= endOffsetDist ==>
              startOffsetDist <= QuadbezCalcOffsetDistAtT(q, startOffsetDist, endOffsetDist, t) <= endOffsetDist
    ensures endOffsetDist <= startOffsetDist ==>
              endOffsetDist <= QuadbezCalcOffsetDistAtT(q, startOffsetDist, endOffsetDist, t) <= startOffsetDist
  {
    if startOffsetDist <= endOffsetDist {
      var d := endOffsetDist - startOffsetDist;
      Geometry.ProductBetween(d, t, d * t);
    } else {
      var d := startOffsetDist - endOffsetDist;
      Geometry.ProductBetween(d, t, d * t);
    }
  }

  /** One coordinate of a control point of `split`: `z q1 - (z - 1) q0`. */
  function SplitControl(q0: real, q1: real, z: real): real { z * q1 - (z - 1.0) * q0 }

  /** One coordinate of the point where `split` cuts: `z^2 p2 - 2 z (z - 1) p1 + (z - 1)^2 p0`. */
  function SplitPoint(p0: real, p1: real, p2: real, z: real): real {
    (z * z) * p2 - 2.0 * z * (z - 1.0) * p1 + (z - 1.0) * (z - 1.0) * p0
  }

  /** `QuadraticBezier::split(z)`, at `z` in `(0, 1)` */
  function SplitQuad(q: QuadraticBezier, z: real): (r: (QuadraticBezier, QuadraticBezier))
    ensures r.0.start == q.start && r.1.end == q.end
    ensures r.0.end == r.1.start == QuadbezCalc(q.start, q.cp, q.end, z)
  {
    var p0, p1, p2 := q.start, q.cp, q.end;
    var mid := Vec2(SplitPoint(p0.x, p1.x, p2.x, z), SplitPoint(p0.y, p1.y, p2.y, z));
    SplitPointOnCurve(p0.x, p1.x, p2.x, z);
    SplitPointOnCurve(p0.y, p1.y, p2.y, z);
    (QuadraticBezier(p0, Vec2(SplitControl(p0.x, p1.x, z), SplitControl(p0.y, p1.y, z)), mid),
     QuadraticBezier(mid, Vec2(SplitControl(p1.x, p2.x, z), SplitControl(p1.y, p2.y, z)), p2))
  }

  lemma SplitPointOnCurve(p0: real, p1: real, p2: real, z: real)
    ensures SplitPoint(p0, p1, p2, z) == QuadPoly(p0, p1, p2, z)
  {
  }

  lemma SplitHalvesCoordinate(p0: real, p1: real, p2: real, z: real, s: real)
    ensures QuadPoly(p0, SplitControl(p0, p1, z), SplitPoint(p0, p1, p2, z), s) == QuadPoly(p0, p1, p2, z * s)
    ensures QuadPoly(SplitPoint(p0, p1, p2, z), SplitControl(p1, p2, z), p2, s) == QuadPoly(p0, p1, p2, z + (1.0 - z) * s)
  {
  }

  /**
   * The two halves of `split(z)` trace the original curve: the first half at `s` is the curve at `z s`, the
   * second at `z + (1 - z) s`.
   */
  lemma SplitQuadTracesCurve(q: QuadraticBezier, z: real, s: real)
    ensures QuadbezCalc(SplitQuad(q, z).0.start, SplitQuad(q, z).0.cp, SplitQuad(q, z).0.end, s)
         == QuadbezCalc(q.start, q.cp, q.end, z * s)
    ensures QuadbezCalc(SplitQuad(q, z).1.start, SplitQuad(q, z).1.cp, SplitQuad(q, z).1.end, s)
         == QuadbezCalc(q.start, q.cp, q.end, z + (1.0 - z) * s)
  {
    SplitHalvesCoordinate(q.start.x, q.cp.x, q.end.x, z, s);
    SplitHalvesCoordinate(q.start.y, q.cp.y, q.end.y, z, s);
  }

  /** One coordinate of a control point of `to_cubic_bezier`: `p + 2/3 (cp - p)`. */
  function Elevate(p: real, cp: real): real { p + (2.0 / 3.0) * (cp - p) }

  /** `to_cubic_bezier`: the degree-elevated curve; both control points lie two thirds of the way toward `cp`. */
  function ToCubicBezier(q: QuadraticBezier): (c: CubicBezier)
    ensures c.start == q.start && c.end == q.end
    ensures c.cp1 == Add(q.start, Scale(Sub(q.cp, q.start), 2.0 / 3.0))
    ensures c.cp2 == Add(q.end, Scale(Sub(q.cp, q.end), 2.0 / 3.0))
  {
    CubicBezier(q.start, Vec2(Elevate(q.start.x, q.cp.x), Elevate(q.start.y, q.cp.y)),
                Vec2(Elevate(q.end.x, q.cp.x), Elevate(q.end.y, q.cp.y)), q.end)
  }

  lemma ElevationCoordinate(p0: real, p1: real, p2: real, t: real)
    ensures CubicMatrixForm(p0, Elevate(p0, p1), Elevate(p2, p1), p2, t) == QuadPoly(p0, p1, p2, t)
  {
  }

  /** Raising the order is lossless: the cubic traces the same points as the quadratic for every `t`. */
  lemma ToCubicBezierLossless(q: QuadraticBezier, t: real)
    ensures CubbezCalc(ToCubicBezier(q).start, ToCubicBezier(q).cp1, ToCubicBezier(q).cp2, ToCubicBezier(q).end, t)
         == QuadbezCalc(q.start, q.cp, q.end, t)
  {
    ElevationCoordinate(q.start.x, q.cp.x, q.end.x, t);
    ElevationCoordinate(q.start.y, q.cp.y, q.end.y, t);
  }

  /** The `n + 1` points of `quadbez_calc` at evenly spaced parameters from 0 to 1. */
  function QuadSamples(q: QuadraticBezier, n: int): (r: seq<Vec2>)
    requires n > 0
    ensures |r| == n + 1
    ensures r[0] == q.start && r[n] == q.end
  {
    ParamBounds(n);
    QuadbezCalcBernstein(q.start, q.cp, q.end, 0.0);
    seq(n + 1, i requires 0 <= i <= n => QuadbezCalc(q.start, q.cp, q.end, Param(i, n)))
  }

  /** The lines `approx_with_lines(n)` produces: `n` chords of the curve between evenly spaced parameters. */
  function QuadChords(q: QuadraticBezier, nSplits: int): (r: seq<Line>)
    ensures |r| == if nSplits <= 0 then 0 else nSplits
    ensures Chained(r)
    ensures nSplits >= 1 ==> r[0].start == q.start && r[nSplits - 1].end == q.end
  {
    if nSplits <= 0 then [] else Chords(QuadSamples(q, nSplits))
  }

  /** `QuadraticBezier::approx_with_lines`: the chords, pushed one by one. */
  method QuadApproxWithLines(q: QuadraticBezier, nSplits: int) returns (lines: seq<Line>)
    ensures lines == QuadChords(q, nSplits)
  {
    lines := [];
    var i := 0;
    while i < nSplits
      invariant 0 <= i <= |QuadChords(q, nSplits)|
      invariant lines == QuadChords(q, nSplits)[..i]
    {
      var startT := Param(i, nSplits);
      var endT := Param(i + 1, nSplits);
      lines := lines + [Line(QuadbezCalc(q.start, q.cp, q.end, startT), QuadbezCalc(q.start, q.cp, q.end, endT))];
      i := i + 1;
    }
  }

  // ---------------------------------------------------------------------------------------------
  // Cubic Bezier

  datatype CubicBezier = CubicBezier(start: Vec2, cp1: Vec2, cp2: Vec2, end: Vec2)

  /** One coordinate of the Bernstein form of a cubic. */
  function CubicBernstein(p0: real, p1: real, p2: real, p3: real, t: real): real {
    (1.0 - t) * (1.0 - t) * (1.0 - t) * p0 + 3.0 * t * (1.0 - t) * (1.0 - t) * p1
      + 3.0 * t * t * (1.0 - t) * p2 + t * t * t * p3
  }

  /**
   * One coordinate of `cubbez_calc`: the row `[1, t, t^2, t^3]` times the constant matrix
   * `[1 0 0 0; -3 3 0 0; 3 -6 3 0; -1 3 -3 1]` times the column of the four coordinates.
   */
  function CubicMatrixForm(p0: real, p1: real, p2: real, p3: real, t: real): real {
    var t2, t3 := t * t, t * t * t;
    var r0 := 1.0 * 1.0 + t * -3.0 + t2 * 3.0 + t3 * -1.0;
    var r1 := 1.0 * 0.0 + t * 3.0 + t2 * -6.0 + t3 * 3.0;
    var r2 := 1.0 * 0.0 + t * 0.0 + t2 * 3.0 + t3 * -3.0;
    var r3 := 1.0 * 0.0 + t * 0.0 + t2 * 0.0 + t3 * 1.0;
    r0 * p0 + r1 * p1 + r2 * p2 + r3 * p3
  }

  /** `cubbez_calc`: the point at `t` of the cubic through the four points, in matrix form. */
  function CubbezCalc(p0: Vec2, p1: Vec2, p2: Vec2, p3: Vec2, t: real): Vec2 {
    Vec2(CubicMatrixForm(p0.x, p1.x, p2.x, p3.x, t), CubicMatrixForm(p0.y, p1.y, p2.y, p3.y, t))
  }

  lemma CubicMatrixIsBernstein(p0: real, p1: real, p2: real, p3: real, t: real)
    ensures CubicMatrixForm(p0, p1, p2, p3, t) == CubicBernstein(p0, p1, p2, p3, t)
  {
  }

  /** `cubbez_calc` agrees with the Bernstein form, and gives `p0` at `t = 0` and `p3` at `t = 1`. */
  lemma CubbezCalcBernstein(p0: Vec2, p1: Vec2, p2: Vec2, p3: Vec2, t: real)
    ensures CubbezCalc(p0, p1, p2, p3, t)
         == Vec2(CubicBernstein(p0.x, p1.x, p2.x, p3.x, t), CubicBernstein(p0.y, p1.y, p2.y, p3.y, t))
    ensures CubbezCalc(p0, p1, p2, p3, 0.0) == p0 && CubbezCalc(p0, p1, p2, p3, 1.0) == p3
  {
    CubicMatrixIsBernstein(p0.x, p1.x, p2.x, p3.x, t);
    CubicMatrixIsBernstein(p0.y, p1.y, p2.y, p3.y, t);
  }

  /** `v / k` for a vector and a non-zero scalar. */
  function Div(v: Vec2, k: real): Vec2
    requires k != 0.0
  {
    Vec2(v.x / k, v.y / k)
  }

  function Square(a: real): real { a * a }

  /** The squared magnitude `x^2 + y^2`; `magnitude()` is zero exactly when this is. */
  function MagnitudeSquared(v: Vec2): real { Square(v.x) + Square(v.y) }

  lemma ProductPositive(p: real, q: real, m: real)
    requires m == p * q
    requires (p > 0.0 && q > 0.0) || (p < 0.0 && q < 0.0)
    ensures m > 0.0
  {
    if p < 0.0 {
      assert p * q == (-p) * (-q);
    }
  }

  lemma SquareSign(a: real)
    ensures a == 0.0 ==> Square(a) == 0.0
    ensures a != 0.0 ==> Square(a) > 0.0
  {
    if a != 0.0 {
      ProductPositive(a, a, Square(a));
    }
  }

  /** Only the zero vector has magnitude zero. */
  lemma MagnitudeZero(v: Vec2)
    ensures MagnitudeSquared(v) == 0.0 <==> v == Zero()
  {
    SquareSign(v.x);
    SquareSign(v.y);
  }

  /**
   * `new_w_catmull_rom` with tension 1: the curve from `second` to `third` whose control points follow the
   * chords of the neighbours; `None` when it would have no length.
   */
  function NewWCatmullRom(first: Vec2, second: Vec2, third: Vec2, forth: Vec2): (r: Option<CubicBezier>)
    ensures r.None? <==> second == third
    ensures r.Some? ==> r.value.start == second && r.value.end == third
    ensures r.Some? ==> r.value.cp1 == Add(second, Div(Sub(third, first), 6.0))
    ensures r.Some? ==> r.value.cp2 == Sub(third, Div(Sub(forth, second), 6.0))
  {
    var tension := 1.0;
    var start := second;
    var cp1 := Add(second, Div(Sub(third, first), 6.0 * tension));
    var cp2 := Sub(third, Div(Sub(forth, second), 6.0 * tension));
    var end := third;
    var cubbez := CubicBezier(start, cp1, cp2, end);
    var length := Sub(cubbez.end, cubbez.start);
    MagnitudeZero(length);
    assert length == Zero() <==> second == third;
    if MagnitudeSquared(length) == 0.0 then None else Some(cubbez)
  }

  /**
   * Catmull-Rom curves of consecutive point windows join smoothly: the curve of `(p0, p1, p2, p3)` ends where the
   * curve of `(p1, p2, p3, p4)` starts, and the end tangent of the first equals the start tangent of the second.
   */
  lemma CatmullRomJoinsSmoothly(p0: Vec2, p1: Vec2, p2: Vec2, p3: Vec2, p4: Vec2)
    requires p1 != p2 && p2 != p3
    ensures NewWCatmullRom(p0, p1, p2, p3).Some? && NewWCatmullRom(p1, p2, p3, p4).Some?
    ensures var a, b := NewWCatmullRom(p0, p1, p2, p3).value, NewWCatmullRom(p1, p2, p3, p4).value;
      a.end == b.start && Sub(a.end, a.cp2) == Sub(b.cp1, b.start)
  {
  }

  /** `CubicBezier::split(t)` by de Casteljau's construction. */
  function SplitCubic(c: CubicBezier, t: real): (r: (CubicBezier, CubicBezier))
    ensures r.0.start == c.start && r.1.end == c.end
    ensures r.0.end == r.1.start == CubbezCalc(c.start, c.cp1, c.cp2, c.end, t)
  {
    var a0, a1, a2, a3 := c.start, c.cp1, c.cp2, c.end;
    var b1 := Lerp(a0, a1, t);
    var a12 := Lerp(a1, a2, t);
    var b2 := Lerp(b1, a12, t);
    var c2 := Lerp(a2, a3, t);
    var c1 := Lerp(a12, c2, t);
    var b3 := Lerp(b2, c1, t);
    CasteljauCoordinate(a0.x, a1.x, a2.x, a3.x, t);
    CasteljauCoordinate(a0.y, a1.y, a2.y, a3.y, t);
    (CubicBezier(a0, b1, b2, b3), CubicBezier(b3, c1, c2, a3))
  }

  lemma CasteljauCoordinate(a0: real, a1: real, a2: real, a3: real, t: real)
    ensures LerpScalar(LerpScalar(LerpScalar(a0, a1, t), LerpScalar(a1, a2, t), t),
                       LerpScalar(LerpScalar(a1, a2, t), LerpScalar(a2, a3, t), t), t)
         == CubicMatrixForm(a0, a1, a2, a3, t)
  {
    CubicMatrixIsBernstein(a0, a1, a2, a3, t);
  }

  /** `approx_with_quadbez`: the endpoints kept, the midpoint of the two control points as control. */
  function ApproxWithQuadbez(c: CubicBezier): (q: QuadraticBezier)
    ensures q.start == c.start && q.end == c.end
    ensures q.cp == Scale(Add(c.cp1, c.cp2), 0.5)
  {
    var start := c.start;
    var cp := Lerp(c.cp1, c.cp2, 0.5);
    var end := c.end;
    QuadraticBezier(start, cp, end)
  }

  /** The `n + 1` points of `cubbez_calc` at evenly spaced parameters from 0 to 1. */
  function CubicSamples(c: CubicBezier, n: int): (r: seq<Vec2>)
    requires n > 0
    ensures |r| == n + 1
    ensures r[0] == c.start && r[n] == c.end
  {
    ParamBounds(n);
    CubbezCalcBernstein(c.start, c.cp1, c.cp2, c.end, 0.0);
    seq(n + 1, i requires 0 <= i <= n => CubbezCalc(c.start, c.cp1, c.cp2, c.end, Param(i, n)))
  }

  /** The lines of `CubicBezier::approx_with_lines(n)`: `n` chords joining the curve's start to its end. */
  function CubicChords(c: CubicBezier, nSplits: int): (r: seq<Line>)
    ensures |r| == if nSplits <= 0 then 0 else nSplits
    ensures Chained(r)
    ensures nSplits >= 1 ==> r[0].start == c.start && r[nSplits - 1].end == c.end
  {
    if nSplits <= 0 then [] else Chords(CubicSamples(c, nSplits))
  }

  /** `CubicBezier::approx_with_lines`: the chords, pushed one by one. */
  method CubicApproxWithLines(c: CubicBezier, nSplits: int) returns (lines: seq<Line>)
    ensures lines == CubicChords(c, nSplits)
  {
    lines := [];
    var i := 0;
    while i < nSplits
      invariant 0 <= i <= |CubicChords(c, nSplits)|
      invariant lines == CubicChords(c, nSplits)[..i]
    {
      var startT := Param(i, nSplits);
      var endT := Param(i + 1, nSplits);
      lines := lines + [Line(CubbezCalc(c.start, c.cp1, c.cp2, c.end, startT),
                             CubbezCalc(c.start, c.cp1, c.cp2, c.end, endT))];
      i := i + 1;
    }
  }
}
