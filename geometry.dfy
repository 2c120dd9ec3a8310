/**
 * Vector and bounding-box helpers of rnote v0.4 (`rnotev0_4::geometry`): the `Vector2Helpers` and
 * `AABBHelpers` traits implemented for nalgebra vectors and parry's `AABB`, and two free scaling functions.
 * Coordinates are reals, so rounding and NaN are not modelled.
 */
module Geometry {
  import opened Vectors
  import opened Wrappers

  function Min(a: real, b: real): real { if a <= b then a else b }

  function Max(a: real, b: real): real { if a <= b then b else a }

  /** `f64::ceil` on reals. */
  function Ceil(r: real): int { -((-r).Floor) }

  lemma CeilBounds(r: real)
    ensures r <= Ceil(r) as real < r + 1.0
  {
  }

  lemma FloorBounds(r: real)
    ensures r - 1.0 < r.Floor as real <= r
  {
  }

  // ---------------------------------------------------------------------------------------------
  // Vector2Helpers

  /** `mins`: the componentwise minimum. */
  function Mins(a: Vec2, b: Vec2): (r: Vec2)
    ensures Le(r, a) && Le(r, b)
    ensures (r.x == a.x || r.x == b.x) && (r.y == a.y || r.y == b.y)
  {
    Vec2(Min(a.x, b.x), Min(a.y, b.y))
  }

  /** `maxs`: the componentwise maximum. */
  function Maxs(a: Vec2, b: Vec2): (r: Vec2)
    ensures Le(a, r) && Le(b, r)
    ensures (r.x == a.x || r.x == b.x) && (r.y == a.y || r.y == b.y)
  {
    Vec2(Max(a.x, b.x), Max(a.y, b.y))
  }

  /** `mins_maxs`, as written: strict comparisons, everything else falls into the last branch. */
  function MinsMaxs(self: Vec2, other: Vec2): (Vec2, Vec2) {
    if self.x < other.x && self.y < other.y then
      (self, other)
    else if self.x > other.x && self.y < other.y then
      (Vec2(other.x, self.y), Vec2(self.x, other.y))
    else if self.x < other.x && self.y > other.y then
      (Vec2(self.x, other.y), Vec2(other.x, self.y))
    else
      (other, self)
  }

  /** Two points tie on one axis while `self` is smaller on the other. */
  predicate TieWithSelfSmaller(self: Vec2, other: Vec2) {
    (self.x == other.x && self.y < other.y) || (self.y == other.y && self.x < other.x)
  }

  /**
   * `mins_maxs` orders its pair exactly when the points do not tie on one axis with `self` smaller on the
   * other; whenever it orders them, it returns the componentwise minimum and maximum.
   */
  lemma MinsMaxsOrdered(self: Vec2, other: Vec2)
    ensures Le(MinsMaxs(self, other).0, MinsMaxs(self, other).1) <==> !TieWithSelfSmaller(self, other)
    ensures !TieWithSelfSmaller(self, other) ==> MinsMaxs(self, other) == (Mins(self, other), Maxs(self, other))
  {
  }

  /** A tie in x with `self` lower in y yields an inverted pair. */
  lemma MinsMaxsInvertedOnTie()
    ensures MinsMaxs(Vec2(0.0, 0.0), Vec2(0.0, 1.0)) == (Vec2(0.0, 1.0), Vec2(0.0, 0.0))
    ensures !Le(MinsMaxs(Vec2(0.0, 0.0), Vec2(0.0, 1.0)).0, MinsMaxs(Vec2(0.0, 0.0), Vec2(0.0, 1.0)).1)
  {
  }

  /** `mins_maxs` with the comparisons `new_positive` uses, which is what its callers evidently expect. */
  function MinsMaxsIntended(self: Vec2, other: Vec2): (r: (Vec2, Vec2))
    ensures Le(r.0, r.1)
    ensures r == (Mins(self, other), Maxs(self, other))
  {
    if self.x <= other.x && self.y <= other.y then
      (self, other)
    else if self.x > other.x && self.y <= other.y then
      (Vec2(other.x, self.y), Vec2(self.x, other.y))
    else if self.x <= other.x && self.y > other.y then
      (Vec2(self.x, other.y), Vec2(other.x, self.y))
    else
      (other, self)
  }

  // ---------------------------------------------------------------------------------------------
  // parry's AABB

  /** `parry2d::bounding_volume::AABB`; `AABB::new` stores its corners as given, without reordering. */
  datatype AABB = AABB(mins: Vec2, maxs: Vec2)

  /** The half extents of parry's `Cuboid` shape. */
  datatype Cuboid = Cuboid(half_extents: Vec2)

  predicate Valid(b: AABB) { Le(b.mins, b.maxs) }

  function Extents(b: AABB): Vec2 { Sub(b.maxs, b.mins) }

  function Center(b: AABB): Vec2 { Vec2((b.mins.x + b.maxs.x) / 2.0, (b.mins.y + b.maxs.y) / 2.0) }

  function HalfExtents(b: AABB): Vec2 { Vec2((b.maxs.x - b.mins.x) / 2.0, (b.maxs.y - b.mins.y) / 2.0) }

  /** `AABB::from_half_extents(center, half_extents)` */
  function FromHalfExtents(center: Vec2, half: Vec2): (b: AABB)
    ensures Center(b) == center && HalfExtents(b) == half
  {
    AABB(Sub(center, half), Add(center, half))
  }

  /** `contains_local_point`: the closed box contains the point. */
  predicate ContainsPoint(b: AABB, p: Vec2) { Le(b.mins, p) && Le(p, b.maxs) }

  /** `b` lies inside `outer`. */
  predicate Within(b: AABB, outer: AABB) { Le(outer.mins, b.mins) && Le(b.maxs, outer.maxs) }

  // ---------------------------------------------------------------------------------------------
  // AABBHelpers

  /** `new_zero`: the box at position zero, with size zero. */
  function NewZero(): (b: AABB)
    ensures b.mins == Zero() && b.maxs == Zero()
    ensures Valid(b) && Extents(b) == Zero()
  {
    AABB(Zero(), Zero())
  }

  /** `new_positive`: orders two arbitrary points into a valid box. */
  function NewPositive(start: Vec2, end: Vec2): AABB {
    if start.x <= end.x && start.y <= end.y then
      AABB(Vec2(start.x, start.y), Vec2(end.x, end.y))
    else if start.x > end.x && start.y <= end.y then
      AABB(Vec2(end.x, start.y), Vec2(start.x, end.y))
    else if start.x <= end.x && start.y > end.y then
      AABB(Vec2(start.x, end.y), Vec2(end.x, start.y))
    else
      AABB(Vec2(end.x, end.y), Vec2(start.x, start.y))
  }

  /** `new_positive` always yields a valid box whose corners are the componentwise min and max. */
  lemma NewPositiveCanonical(start: Vec2, end: Vec2)
    ensures Valid(NewPositive(start, end))
    ensures NewPositive(start, end) == AABB(Mins(start, end), Maxs(start, end))
    ensures NewPositive(start, end) == NewPositive(end, start)
  {
  }

  /** `translate`: both corners move by `offset`. */
  function Translate(b: AABB, offset: Vec2): (r: AABB)
    ensures Extents(r) == Extents(b)
    ensures Valid(r) <==> Valid(b)
    ensures forall p :: ContainsPoint(b, p) <==> ContainsPoint(r, Add(p, offset))
  {
    AABB(Add(b.mins, offset), Add(b.maxs, offset))
  }

  /** `floor`: the mins are rounded up and the maxs down. */
  function FloorAabb(b: AABB): AABB {
    AABB(Vec2(Ceil(b.mins.x) as real, Ceil(b.mins.y) as real), Vec2(b.maxs.x.Floor as real, b.maxs.y.Floor as real))
  }

  /** `floor` shrinks each side to the nearest integer inside: the result lies within the original. */
  lemma FloorShrinks(b: AABB)
    ensures Within(FloorAabb(b), b)
    ensures b.mins.x + 1.0 > FloorAabb(b).mins.x && b.mins.y + 1.0 > FloorAabb(b).mins.y
    ensures b.maxs.x - 1.0 < FloorAabb(b).maxs.x && b.maxs.y - 1.0 < FloorAabb(b).maxs.y
  {
    CeilBounds(b.mins.x);
    CeilBounds(b.mins.y);
  }

  /** Shrinking a box narrower than one unit inverts it. */
  lemma FloorMayInvert()
    ensures !Valid(FloorAabb(AABB(Vec2(0.25, 0.0), Vec2(0.75, 1.0))))
  {
    assert Ceil(0.25) == 1;
  }

  /** `ceil`: the mins are rounded down and the maxs up. */
  function CeilAabb(b: AABB): AABB {
    AABB(Vec2(b.mins.x.Floor as real, b.mins.y.Floor as real), Vec2(Ceil(b.maxs.x) as real, Ceil(b.maxs.y) as real))
  }

  /** `ceil` grows each side to the nearest integer outside: the result contains the original and stays valid. */
  lemma CeilGrows(b: AABB)
    ensures Within(b, CeilAabb(b))
    ensures CeilAabb(b).mins.x > b.mins.x - 1.0 && CeilAabb(b).mins.y > b.mins.y - 1.0
    ensures CeilAabb(b).maxs.x < b.maxs.x + 1.0 && CeilAabb(b).maxs.y < b.maxs.y + 1.0
    ensures Valid(b) ==> Valid(CeilAabb(b))
  {
    CeilBounds(b.maxs.x);
    CeilBounds(b.maxs.y);
  }

  /** The coordinatewise hull of two boxes. */
  function Hull(b: AABB, c: AABB): AABB { AABB(Mins(b.mins, c.mins), Maxs(b.maxs, c.maxs)) }

  /** The coordinatewise intersection of two boxes (inverted when they do not overlap). */
  function Intersection(b: AABB, c: AABB): AABB { AABB(Maxs(b.mins, c.mins), Mins(b.maxs, c.maxs)) }

  /**
   * `clamp`: with only `min` given, the result is the hull of `self` and `min`; whenever `max` is given the
   * result is the intersection of `self` and `max`, recomputed from `self`, so `min` is then ignored.
   */
  method Clamp(self: AABB, min: Option<AABB>, max: Option<AABB>) returns (r: AABB)
    ensures max.Some? ==> r == Intersection(self, max.value)
    ensures max.None? && min.Some? ==> r == Hull(self, min.value)
    ensures max.None? && min.None? ==> r == self
  {
    var minsX := self.mins.x;
    var minsY := self.mins.y;
    var maxsX := self.maxs.x;
    var maxsY := self.maxs.y;

    if min.Some? {
      minsX := Min(self.mins.x, min.value.mins.x);
      minsY := Min(self.mins.y, min.value.mins.y);
      maxsX := Max(self.maxs.x, min.value.maxs.x);
      maxsY := Max(self.maxs.y, min.value.maxs.y);
    }
    if max.Some? {
      minsX := Max(self.mins.x, max.value.mins.x);
      minsY := Max(self.mins.y, max.value.mins.y);
      maxsX := Min(self.maxs.x, max.value.maxs.x);
      maxsY := Min(self.maxs.y, max.value.maxs.y);
    }

    r := AABB(Vec2(minsX, minsY), Vec2(maxsX, maxsY));
  }

  /** Clamping to a lower bound box contains both boxes; clamping to an upper bound stays inside both. */
  lemma ClampBounds(self: AABB, c: AABB)
    ensures Within(self, Hull(self, c)) && Within(c, Hull(self, c))
    ensures Within(Intersection(self, c), self) && Within(Intersection(self, c), c)
  {
  }

  /** `expand`: every side moves outward by `expand_by`. */
  function Expand(b: AABB, expandBy: Vec2): AABB {
    AABB(Sub(b.mins, expandBy), Add(b.maxs, expandBy))
  }

  /** A non-negative expansion keeps a valid box valid, contains it, and widens each extent by twice the margin. */
  lemma ExpandGrows(b: AABB, e: Vec2)
    requires Le(Zero(), e)
    ensures Valid(b) ==> Valid(Expand(b, e))
    ensures Within(b, Expand(b, e))
    ensures Extents(Expand(b, e)) == Add(Extents(b), Scale(e, 2.0))
  {
  }

  /** `scale`: the mins corner is multiplied by `scale[0]` and the maxs corner by `scale[1]`. */
  function ScaleAabb(b: AABB, scale: Vec2): AABB {
    AABB(Scale(b.mins, scale.x), Scale(b.maxs, scale.y))
  }

  /**
   * `scale` is a uniform scaling when both factors agree; in general the mins depend only on `scale[0]`
   * and the maxs only on `scale[1]`.
   */
  lemma ScaleCorners(b: AABB, k: real, l: real, l': real)
    ensures ScaleAabb(b, Vec2(k, l)).mins == ScaleAabb(b, Vec2(k, l')).mins
    ensures ScaleAabb(b, Vec2(l, k)).maxs == ScaleAabb(b, Vec2(l', k)).maxs
    ensures k >= 0.0 && Valid(b) ==> Valid(ScaleAabb(b, Vec2(k, k)))
    ensures Extents(ScaleAabb(b, Vec2(k, k))) == Scale(Extents(b), k)
  {
    if k >= 0.0 && Valid(b) {
      UniformScaleValid(b, k);
    }
    UniformScaleExtents(b, k);
  }

  lemma UniformScaleValid(b: AABB, k: real)
    requires k >= 0.0 && Valid(b)
    ensures Valid(ScaleAabb(b, Vec2(k, k)))
  {
    MulMonotone(k, b.mins.x, b.maxs.x);
    MulMonotone(k, b.mins.y, b.maxs.y);
  }

  lemma UniformScaleExtents(b: AABB, k: real)
    ensures Extents(ScaleAabb(b, Vec2(k, k))) == Scale(Extents(b), k)
  {
    MulSub(k, b.mins.x, b.maxs.x);
    MulSub(k, b.mins.y, b.maxs.y);
  }

  lemma MulSub(k: real, a: real, b: real)
    ensures k * b - k * a == k * (b - a)
  {
  }

  /** A product of a non-negative factor with one in `[0, 1]` lies between zero and the first factor. */
  lemma ProductBetween(d: real, t: real, m: real)
    requires d >= 0.0 && 0.0 <= t <= 1.0 && m == d * t
    ensures 0.0 <= m <= d
  {
    MulMonotone(d, 0.0, t);
    MulMonotone(d, t, 1.0);
  }

  /** One axis of the outer map: a coordinate inside the old span lands inside the new one. */
  lemma AxisStaysInside(i0: real, i1: real, o0: real, o1: real, n0: real, n1: real)
    requires o1 - o0 > 0.0 && n0 <= n1 && o0 <= i0 && i1 <= o1
    ensures n0 <= n0 + (i0 - o0) * ((n1 - n0) / (o1 - o0))
    ensures n0 + (i1 - o0) * ((n1 - n0) / (o1 - o0)) <= n1
  {
    var s := (n1 - n0) / (o1 - o0);
    assert s >= 0.0;
    assert (o1 - o0) * s == n1 - n0;
    MulMonotone(s, 0.0, i0 - o0);
    MulMonotone(s, i1 - o0, o1 - o0);
    assert (i0 - o0) * s == s * (i0 - o0) && (i1 - o0) * s == s * (i1 - o0);
  }

  lemma MulMonotone(k: real, a: real, b: real)
    requires k >= 0.0 && a <= b
    ensures k * a <= k * b
  {
    assert k * b - k * a == k * (b - a);
  }

  /** The box `ensure_valid` leaves behind: each axis sorted on its own. */
  function Repaired(b: AABB): AABB {
    AABB(Vec2(Min(b.mins.x, b.maxs.x), Min(b.mins.y, b.maxs.y)), Vec2(Max(b.mins.x, b.maxs.x), Max(b.mins.y, b.maxs.y)))
  }

  /** `ensure_valid`: swaps the two coordinates of each inverted axis. */
  method EnsureValid(self: AABB) returns (r: AABB)
    ensures r == Repaired(self)
    ensures Valid(r)
  {
    r := self;
    if r.mins.x > r.maxs.x {
      var t := r.mins.x;
      r := r.(mins := r.mins.(x := r.maxs.x));
      r := r.(maxs := r.maxs.(x := t));
    }
    if r.mins.y > r.maxs.y {
      var t := r.mins.y;
      r := r.(mins := r.mins.(y := r.maxs.y));
      r := r.(maxs := r.maxs.(y := t));
    }
  }

  /** Repair leaves valid boxes alone, is idempotent, and treats each axis independently. */
  lemma RepairedProperties(b: AABB, c: AABB)
    ensures Valid(Repaired(b))
    ensures Valid(b) ==> Repaired(b) == b
    ensures Repaired(Repaired(b)) == Repaired(b)
    ensures b.mins.x == c.mins.x && b.maxs.x == c.maxs.x ==>
              Repaired(b).mins.x == Repaired(c).mins.x && Repaired(b).maxs.x == Repaired(c).maxs.x
    ensures b.mins.y == c.mins.y && b.maxs.y == c.maxs.y ==>
              Repaired(b).mins.y == Repaired(c).mins.y && Repaired(b).maxs.y == Repaired(c).maxs.y
  {
  }

  /** `hsplit`: the left and right halves, meeting at the center's x. */
  function HSplit(b: AABB): seq<AABB> {
    [AABB(b.mins, Vec2(Center(b).x, b.maxs.y)), AABB(Vec2(Center(b).x, b.mins.y), b.maxs)]
  }

  /** `vsplit`: the lower and upper halves, meeting at the center's y. */
  function VSplit(b: AABB): seq<AABB> {
    [AABB(b.mins, Vec2(b.maxs.x, Center(b).y)), AABB(Vec2(b.mins.x, Center(b).y), b.maxs)]
  }

  /** The halves keep the outer corners, meet at the center, and each has half the extent along the cut. */
  lemma HalvesMeetAtCenter(b: AABB)
    ensures HSplit(b)[0].mins == b.mins && HSplit(b)[1].maxs == b.maxs
    ensures HSplit(b)[0].maxs.x == HSplit(b)[1].mins.x == Center(b).x
    ensures Extents(HSplit(b)[0]) == Extents(HSplit(b)[1]) == Vec2(Extents(b).x / 2.0, Extents(b).y)
    ensures VSplit(b)[0].mins == b.mins && VSplit(b)[1].maxs == b.maxs
    ensures VSplit(b)[0].maxs.y == VSplit(b)[1].mins.y == Center(b).y
    ensures Extents(VSplit(b)[0]) == Extents(VSplit(b)[1]) == Vec2(Extents(b).x, Extents(b).y / 2.0)
    ensures Valid(b) ==> forall h :: h in HSplit(b) + VSplit(b) ==> Valid(h) && Within(h, b)
  {
  }

  // ---------------------------------------------------------------------------------------------
  // Free scaling helpers

  /** `scale_w_locked_aspectratio`: `srcSize` scaled by the smaller of its two ratios to `maxSize`. */
  function ScaleWLockedAspectratio(srcSize: Vec2, maxSize: Vec2): Vec2
    requires srcSize.x != 0.0 && srcSize.y != 0.0
  {
    var ratio := Min(maxSize.x / srcSize.x, maxSize.y / srcSize.y);
    Scale(srcSize, ratio)
  }

  /** A positive size scaled this way fits `maxSize`, touches it on one axis, and keeps its aspect ratio. */
  lemma ScaleWLockedAspectratioFits(srcSize: Vec2, maxSize: Vec2)
    requires srcSize.x > 0.0 && srcSize.y > 0.0
    ensures var r := ScaleWLockedAspectratio(srcSize, maxSize);
      && r.x <= maxSize.x && r.y <= maxSize.y
      && (r.x == maxSize.x || r.y == maxSize.y)
      && r.x * srcSize.y == r.y * srcSize.x
  {
    var rx, ry := maxSize.x / srcSize.x, maxSize.y / srcSize.y;
    var ratio := Min(rx, ry);
    assert rx * srcSize.x == maxSize.x && ry * srcSize.y == maxSize.y;
    MulMonotone(srcSize.x, ratio, rx);
    MulMonotone(srcSize.y, ratio, ry);
    assert ratio * srcSize.x * srcSize.y == ratio * srcSize.y * srcSize.x;
  }

  /** Where the map from `oldOuter` onto `newOuter` takes a point (per axis: shift, then stretch). */
  function OuterMap(oldOuter: AABB, newOuter: AABB, p: Vec2): Vec2
    requires Extents(oldOuter).x != 0.0 && Extents(oldOuter).y != 0.0
  {
    Vec2(newOuter.mins.x + (p.x - oldOuter.mins.x) * (Extents(newOuter).x / Extents(oldOuter).x),
         newOuter.mins.y + (p.y - oldOuter.mins.y) * (Extents(newOuter).y / Extents(oldOuter).y))
  }

  /**
   * `scale_inner_bounds_to_new_outer_bounds`: the inner box's `mins` are moved and stretched as the outer box is,
   * its extents stretched by the same factors; the result is the inner box's image under the outer map.
   */
  function ScaleInnerBoundsToNewOuterBounds(oldInnerBounds: AABB, oldOuterBounds: AABB, newOuterBounds: AABB): (r: AABB)
    requires Extents(oldOuterBounds).x != 0.0 && Extents(oldOuterBounds).y != 0.0
    ensures r.mins == OuterMap(oldOuterBounds, newOuterBounds, oldInnerBounds.mins)
    ensures r.maxs == OuterMap(oldOuterBounds, newOuterBounds, oldInnerBounds.maxs)
  {
    var offset := Vec2(newOuterBounds.mins.x - oldOuterBounds.mins.x, newOuterBounds.mins.y - oldOuterBounds.mins.y);
    var scalevector := Vec2(Extents(newOuterBounds).x / Extents(oldOuterBounds).x,
                            Extents(newOuterBounds).y / Extents(oldOuterBounds).y);
    var mins := Vec2((oldInnerBounds.mins.x - oldOuterBounds.mins.x) * scalevector.x + oldOuterBounds.mins.x + offset.x,
                     (oldInnerBounds.mins.y - oldOuterBounds.mins.y) * scalevector.y + oldOuterBounds.mins.y + offset.y);
    var r := AABB(mins, Vec2(mins.x + Extents(oldInnerBounds).x * scalevector.x,
                             mins.y + Extents(oldInnerBounds).y * scalevector.y));
    assert (oldInnerBounds.mins.x - oldOuterBounds.mins.x) * scalevector.x + Extents(oldInnerBounds).x * scalevector.x
        == (oldInnerBounds.maxs.x - oldOuterBounds.mins.x) * scalevector.x;
    assert (oldInnerBounds.mins.y - oldOuterBounds.mins.y) * scalevector.y + Extents(oldInnerBounds).y * scalevector.y
        == (oldInnerBounds.maxs.y - oldOuterBounds.mins.y) * scalevector.y;
    r
  }

  /** The outer box itself is carried exactly onto the new outer box. */
  lemma ScaleOuterOntoNewOuter(oldOuter: AABB, newOuter: AABB)
    requires Extents(oldOuter).x != 0.0 && Extents(oldOuter).y != 0.0
    ensures ScaleInnerBoundsToNewOuterBounds(oldOuter, oldOuter, newOuter) == newOuter
  {
    var sx, sy := Extents(newOuter).x / Extents(oldOuter).x, Extents(newOuter).y / Extents(oldOuter).y;
    assert Extents(oldOuter).x * sx == Extents(newOuter).x;
    assert Extents(oldOuter).y * sy == Extents(newOuter).y;
  }

  /** Between valid outer boxes (the old one non-degenerate) the map keeps inner boxes inside. */
  lemma ScaleInnerStaysInside(inner: AABB, oldOuter: AABB, newOuter: AABB)
    requires Extents(oldOuter).x > 0.0 && Extents(oldOuter).y > 0.0 && Valid(newOuter)
    requires Within(inner, oldOuter)
    ensures Within(ScaleInnerBoundsToNewOuterBounds(inner, oldOuter, newOuter), newOuter)
  {
    AxisStaysInside(inner.mins.x, inner.maxs.x, oldOuter.mins.x, oldOuter.maxs.x, newOuter.mins.x, newOuter.maxs.x);
    AxisStaysInside(inner.mins.y, inner.maxs.y, oldOuter.mins.y, oldOuter.maxs.y, newOuter.mins.y, newOuter.maxs.y);
  }

}
