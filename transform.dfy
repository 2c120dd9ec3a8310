/**
 * The affine transform of rnote v0.4 (`rnotev0_4::transform::Transform`), which v0.5 re-exports unchanged.
 * `nalgebra::Affine2` is a 2x2 linear part plus a translation; rotations by an angle are kept abstract
 * as arbitrary linear maps, since their trigonometry is not modelled.
 */
module Transforms {
  import opened Vectors

  /** A 2x2 matrix `[a b; c d]`. */
  datatype Mat2 = Mat2(a: real, b: real, c: real, d: real)

  function MatApply(m: Mat2, v: Vec2): Vec2 {
    Vec2(m.a * v.x + m.b * v.y, m.c * v.x + m.d * v.y)
  }

  function MatMul(m: Mat2, n: Mat2): Mat2 {
    Mat2(m.a * n.a + m.b * n.c, m.a * n.b + m.b * n.d, m.c * n.a + m.d * n.c, m.c * n.b + m.d * n.d)
  }

  function MatIdentity(): Mat2 { Mat2(1.0, 0.0, 0.0, 1.0) }

  /** The diagonal matrix of `Scale2::from(s)`. */
  function MatDiag(s: Vec2): Mat2 { Mat2(s.x, 0.0, 0.0, s.y) }

  /** An affine map `p |-> linear * p + translation` (the homogeneous matrix with last row `[0 0 1]`). */
  datatype Affine2 = Affine2(linear: Mat2, translation: Vec2)

  function AffineIdentity(): Affine2 { Affine2(MatIdentity(), Zero()) }

  /** `na::Translation2::from(offset)` as an affine map. */
  function Translation(offset: Vec2): Affine2 { Affine2(MatIdentity(), offset) }

  /** `f * g`: the map that applies `g` first, then `f`. */
  function Compose(f: Affine2, g: Affine2): Affine2 {
    Affine2(MatMul(f.linear, g.linear), Add(MatApply(f.linear, g.translation), f.translation))
  }

  /** `f * point` */
  function AffineApply(f: Affine2, p: Vec2): Vec2 {
    Add(MatApply(f.linear, p), f.translation)
  }

  lemma MatMulApply(m: Mat2, n: Mat2, v: Vec2)
    ensures MatApply(MatMul(m, n), v) == MatApply(m, MatApply(n, v))
  {
    assert (m.a * n.a + m.b * n.c) * v.x + (m.a * n.b + m.b * n.d) * v.y
        == m.a * (n.a * v.x + n.b * v.y) + m.b * (n.c * v.x + n.d * v.y);
    assert (m.c * n.a + m.d * n.c) * v.x + (m.c * n.b + m.d * n.d) * v.y
        == m.c * (n.a * v.x + n.b * v.y) + m.d * (n.c * v.x + n.d * v.y);
  }

  lemma MatApplySub(m: Mat2, u: Vec2, v: Vec2)
    ensures MatApply(m, Sub(u, v)) == Sub(MatApply(m, u), MatApply(m, v))
  {
    assert m.a * (u.x - v.x) + m.b * (u.y - v.y) == (m.a * u.x + m.b * u.y) - (m.a * v.x + m.b * v.y);
    assert m.c * (u.x - v.x) + m.d * (u.y - v.y) == (m.c * u.x + m.d * u.y) - (m.c * v.x + m.d * v.y);
  }

  /** Composition applies the right operand first. */
  lemma ComposeApply(f: Affine2, g: Affine2, p: Vec2)
    ensures AffineApply(Compose(f, g), p) == AffineApply(f, AffineApply(g, p))
  {
    MatMulApply(f.linear, g.linear, p);
    var q := MatApply(g.linear, p);
    assert MatApply(f.linear, Add(q, g.translation)) == Add(MatApply(f.linear, q), MatApply(f.linear, g.translation)) by {
      assert f.linear.a * (q.x + g.translation.x) + f.linear.b * (q.y + g.translation.y)
          == (f.linear.a * q.x + f.linear.b * q.y) + (f.linear.a * g.translation.x + f.linear.b * g.translation.y);
      assert f.linear.c * (q.x + g.translation.x) + f.linear.d * (q.y + g.translation.y)
          == (f.linear.c * q.x + f.linear.d * q.y) + (f.linear.c * g.translation.x + f.linear.d * g.translation.y);
    }
  }

  /** An isometry: a rotation, kept as an arbitrary linear map, followed by a translation. */
  datatype Isometry = Isometry(rotation: Mat2, translation: Vec2)

  datatype Transform = Transform(transform: Affine2)

  /** `Transform::default()`: the identity. */
  function Default(): (t: Transform)
    ensures forall p :: TransformPoint(t, p) == p
  {
    Transform(AffineIdentity())
  }

  function New(transform: Affine2): Transform { Transform(transform) }

  /** `Transform::new_w_isometry`: the isometry converted to an affine map. */
  function NewWIsometry(iso: Isometry): (t: Transform)
    ensures forall p :: TransformPoint(t, p) == Add(MatApply(iso.rotation, p), iso.translation)
  {
    Transform(Affine2(iso.rotation, iso.translation))
  }

  function TransformPoint(t: Transform, p: Vec2): Vec2 { AffineApply(t.transform, p) }

  /**
   * `append_translation_mut`: the translation is multiplied on the left, so every image moves by `offset`.
   * The `&mut self` update of this Copy value is modelled as taking the old value and returning the new one.
   */
  method AppendTranslationMut(self: Transform, offset: Vec2) returns (r: Transform)
    ensures forall p :: TransformPoint(r, p) == Add(TransformPoint(self, p), offset)
  {
    r := self;
    r := r.(transform := Compose(Translation(offset), r.transform));
    forall p ensures TransformPoint(r, p) == Add(TransformPoint(self, p), offset) {
      ComposeApply(Translation(offset), self.transform, p);
    }
  }

  /**
   * `append_rotation_wrt_point_mut`: translate `center` to the origin, apply the rotation (here any linear map),
   * translate back. Each step multiplies on the left, so the rotation acts on the old images about `center`.
   */
  method AppendRotationWrtPointMut(self: Transform, rotation: Mat2, center: Vec2) returns (r: Transform)
    ensures forall p :: TransformPoint(r, p) == Add(MatApply(rotation, Sub(TransformPoint(self, p), center)), center)
    ensures forall p :: TransformPoint(self, p) == center ==> TransformPoint(r, p) == center
  {
    r := self;
    r := r.(transform := Compose(Translation(Neg(center)), r.transform));
    ghost var t1 := r.transform;
    r := r.(transform := Compose(Affine2(rotation, Zero()), r.transform));
    ghost var t2 := r.transform;
    r := r.(transform := Compose(Translation(center), r.transform));
    forall p ensures TransformPoint(r, p) == Add(MatApply(rotation, Sub(TransformPoint(self, p), center)), center) {
      ComposeApply(Translation(Neg(center)), self.transform, p);
      ComposeApply(Affine2(rotation, Zero()), t1, p);
      ComposeApply(Translation(center), t2, p);
    }
    forall p | TransformPoint(self, p) == center ensures TransformPoint(r, p) == center {
      assert Sub(TransformPoint(self, p), center) == Zero();
    }
  }

  /**
   * `append_scale_mut`: the current image of the origin is the pivot; the scale acts on the old images
   * relative to that pivot, which therefore stays where it was.
   */
  method AppendScaleMut(self: Transform, scale: Vec2) returns (r: Transform)
    ensures forall p :: TransformPoint(r, p)
                     == Add(MatApply(MatDiag(scale), Sub(TransformPoint(self, p), TransformPoint(self, Zero()))),
                            TransformPoint(self, Zero()))
    ensures TransformPoint(r, Zero()) == TransformPoint(self, Zero())
  {
    var translation := TransformPoint(self, Zero());
    r := self;
    r := r.(transform := Compose(Translation(Neg(translation)), r.transform));
    ghost var t1 := r.transform;
    // `Scale2::to_homogeneous() * to_homogeneous()`, converted back; the last row stays [0 0 1], so it always converts
    r := r.(transform := Compose(Affine2(MatDiag(scale), Zero()), r.transform));
    ghost var t2 := r.transform;
    r := r.(transform := Compose(Translation(translation), r.transform));
    forall p ensures TransformPoint(r, p) == Add(MatApply(MatDiag(scale), Sub(TransformPoint(self, p), translation)), translation) {
      ComposeApply(Translation(Neg(translation)), self.transform, p);
      ComposeApply(Affine2(MatDiag(scale), Zero()), t1, p);
      ComposeApply(Translation(translation), t2, p);
    }
    assert Sub(translation, translation) == Zero();
  }
}
