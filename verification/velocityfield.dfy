/** `VelocityField`: a pair of references to the staggered u and v grids,
    sampled together at a world position.  The grids are only read. */
module VelocityFields {
  import opened Geometry
  import opened Grids

  datatype VelocityField = VelocityField(up: Array2<real>, vp: Array2<real>)

  ghost predicate Valid(vf: VelocityField)
  {
    vf.up.Valid() && vf.vp.Valid()
  }

  /** `operator()(world_position)` over the grids' current values: u sampled
      for x, v sampled for y.  The clamped sampling accepts every position. */
  function Sampler(vf: VelocityField): (r: Vec2 -> Vec2)
    requires Valid(vf)
    reads vf.up.data, vf.vp.data
    ensures 0 < |vf.up.data[..]| && 0 < |vf.vp.data[..]|
    ensures forall w :: SeqMin(vf.up.data[..]) <= r(w).x <= SeqMax(vf.up.data[..]) &&
                        SeqMin(vf.vp.data[..]) <= r(w).y <= SeqMax(vf.vp.data[..])
  {
    ProductPositive(vf.up.sx, vf.up.sy);
    ProductPositive(vf.vp.sx, vf.vp.sy);
    var us, vs := vf.up.data[..], vf.vp.data[..];
    (w: Vec2) => Vec2(ValueAt(vf.up, us, w), ValueAt(vf.vp, vs, w))
  }

  /** Constant u and v grids give the same velocity at every position. */
  lemma {:induction false} SamplerConstant(vf: VelocityField, cu: real, cv: real, w: Vec2)
    requires Valid(vf) && Constant(vf.up.data[..], cu) && Constant(vf.vp.data[..], cv)
    ensures Sampler(vf)(w) == Vec2(cu, cv)
  {
    ValueAtConstant(vf.up, vf.up.data[..], cu, w);
    ValueAtConstant(vf.vp, vf.vp.data[..], cv, w);
  }

  /** The x component is the u grid's alone: two fields sharing a u grid
      agree on x whatever their v grids hold, and likewise for y. */
  lemma ComponentsSeparate(a: VelocityField, b: VelocityField, w: Vec2)
    requires Valid(a) && Valid(b)
    ensures a.up == b.up ==> Sampler(a)(w).x == Sampler(b)(w).x
    ensures a.vp == b.vp ==> Sampler(a)(w).y == Sampler(b)(w).y
  {
  }

  /** At the world position of a u face the x component is that face's
      stored value, and at a v face the y component is the stored v. */
  lemma {:induction false} SamplerAtFaces(vf: VelocityField, iu: Index2, iv: Index2)
    requires Valid(vf) && vf.up.InBounds(iu) && vf.vp.InBounds(iv)
    ensures Sampler(vf)(vf.up.WorldspaceOf(Vec2(iu.i as real, iu.j as real))).x == vf.up.At(iu)
    ensures Sampler(vf)(vf.vp.WorldspaceOf(Vec2(iv.i as real, iv.j as real))).y == vf.vp.At(iv)
  {
    ValueAtCell(vf.up, iu);
    ValueAtCell(vf.vp, iv);
  }
}
