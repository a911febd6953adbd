/** The difference kernels and integrators of the simulator: the upwind
    gradient used to advect level sets, the central-difference gradient and
    its bilinear interpolation, forward Euler and the code's own RK4. */
module Calculus {
  import opened Geometry
  import opened Grids
  import opened VelocityFields

  // ---------------------------------------------------------------------
  // Upwind gradient

  /** The band in which `upwind_gradient` computes differences, as written:
      1 <= i <= sx - 2 and 0 <= j <= sy - 2. */
  predicate InBandAsWritten(phi: Array2<real>, ij: Index2)
  {
    !(ij.i < 1 || ij.i > phi.sx - 2 || ij.j < 0 || ij.j > phi.sy - 2)
  }

  /** The band the one-sided differences need, 1 <= i <= sx - 2 and
      1 <= j <= sy - 2: every neighbour the stencil may read is in the grid. */
  predicate InBand(phi: Array2<real>, ij: Index2)
  {
    1 <= ij.i <= phi.sx - 2 && 1 <= ij.j <= phi.sy - 2
  }

  /** The cells the as-written kernel can evaluate: everywhere except on row
      0 inside the band with a positive y velocity, where it reads row -1. */
  predicate AsWrittenStencilInside(phi: Array2<real>, velocity: Vec2, ij: Index2)
  {
    !(InBandAsWritten(phi, ij) && ij.j == 0 && velocity.y > 0.0)
  }

  /** One axis of the upwind difference: backward when the velocity
      component is positive, forward otherwise (zero included). */
  function OneSided(vel: real, back: real, here: real, ahead: real): real
  {
    if vel > 0.0 then here - back else ahead - here
  }

  /** `upwind_gradient` as written, defined where its reads stay in the grid. */
  function UpwindGradientAsWritten(phi: Array2<real>, velocity: Vec2, ij: Index2): (g: Vec2)
    requires phi.Valid() && AsWrittenStencilInside(phi, velocity, ij)
    reads phi.data
    ensures !InBandAsWritten(phi, ij) ==> g == Zero()
  {
    if !InBandAsWritten(phi, ij) then Zero()
    else
      var i, j := ij.i, ij.j;
      var dx := OneSided(velocity.x, phi.At(Index2(i - 1, j)), phi.At(ij), phi.At(Index2(i + 1, j)));
      var dy := if velocity.y > 0.0 then phi.At(ij) - phi.At(Index2(i, j - 1))
                else phi.At(Index2(i, j + 1)) - phi.At(ij);
      Vec2(dx / phi.h, dy / phi.h)
  }

  /** `upwind_gradient` with the lower y bound of its guard raised to 1, the
      bound the x axis already has; this is the kernel the rest of the model
      uses. */
  function UpwindGradient(phi: Array2<real>, velocity: Vec2, ij: Index2): (g: Vec2)
    requires phi.Valid()
    reads phi.data
    ensures !InBand(phi, ij) ==> g == Zero()
  {
    if !InBand(phi, ij) then Zero()
    else
      var i, j := ij.i, ij.j;
      var dx := OneSided(velocity.x, phi.At(Index2(i - 1, j)), phi.At(ij), phi.At(Index2(i + 1, j)));
      var dy := OneSided(velocity.y, phi.At(Index2(i, j - 1)), phi.At(ij), phi.At(Index2(i, j + 1)));
      Vec2(dx / phi.h, dy / phi.h)
  }

  /** The as-written guard lets cell (1, 0) through on any grid at least 3
      wide and 2 tall, and with a positive y velocity the backward difference
      there reads cell (1, -1), which is not in the grid. */
  lemma UpwindGuardAdmitsRowBelow(phi: Array2<real>)
    requires phi.Valid() && 3 <= phi.sx && 2 <= phi.sy
    ensures InBandAsWritten(phi, Index2(1, 0))
    ensures !AsWrittenStencilInside(phi, Vec2(0.0, 1.0), Index2(1, 0))
    ensures !phi.InBounds(Index2(1, -1))
  {
  }

  /** With the corrected guard every neighbour read is in the grid, and away
      from row 0 the corrected kernel agrees with the one as written. */
  lemma {:induction false} UpwindGradientCorrected(phi: Array2<real>, velocity: Vec2, ij: Index2)
    requires phi.Valid()
    ensures InBand(phi, ij) ==>
      phi.InBounds(Index2(ij.i - 1, ij.j)) && phi.InBounds(Index2(ij.i + 1, ij.j)) &&
      phi.InBounds(Index2(ij.i, ij.j - 1)) && phi.InBounds(Index2(ij.i, ij.j + 1))
    ensures ij.j != 0 ==>
      AsWrittenStencilInside(phi, velocity, ij) &&
      UpwindGradient(phi, velocity, ij) == UpwindGradientAsWritten(phi, velocity, ij)
  {
    if ij.j != 0 {
      assert InBand(phi, ij) == InBandAsWritten(phi, ij);
    }
  }

  /** A constant phi has a zero upwind gradient everywhere. */
  lemma {:induction false} UpwindConstant(phi: Array2<real>, c: real, velocity: Vec2, ij: Index2)
    requires phi.Valid() && Constant(phi.data[..], c)
    ensures UpwindGradient(phi, velocity, ij) == Zero()
  {
    if InBand(phi, ij) {
      CellOfConstant(phi, c, ij);
      CellOfConstant(phi, c, Index2(ij.i - 1, ij.j));
      CellOfConstant(phi, c, Index2(ij.i + 1, ij.j));
      CellOfConstant(phi, c, Index2(ij.i, ij.j - 1));
      CellOfConstant(phi, c, Index2(ij.i, ij.j + 1));
    }
  }

  /** The kernel as written also sees no slope in a constant field,
      row 0 of its band included. */
  lemma {:induction false} UpwindConstantAsWritten(phi: Array2<real>, c: real, velocity: Vec2, ij: Index2)
    requires phi.Valid() && Constant(phi.data[..], c) && AsWrittenStencilInside(phi, velocity, ij)
    ensures UpwindGradientAsWritten(phi, velocity, ij) == Zero()
  {
    if InBandAsWritten(phi, ij) {
      CellOfConstant(phi, c, ij);
      CellOfConstant(phi, c, Index2(ij.i - 1, ij.j));
      CellOfConstant(phi, c, Index2(ij.i + 1, ij.j));
      CellOfConstant(phi, c, Index2(ij.i, ij.j + 1));
      if velocity.y > 0.0 {
        CellOfConstant(phi, c, Index2(ij.i, ij.j - 1));
      }
    }
  }

  /** The value a * i + b * j + c of a linear field at cell (i, j). */
  function LinearAt(a: real, b: real, c: real, ij: Index2): real
  {
    a * (ij.i as real) + b * (ij.j as real) + c
  }

  /** phi holds a * i + b * j + c at every cell (i, j). */
  ghost predicate Linear(phi: Array2<real>, a: real, b: real, c: real)
    requires phi.Valid()
    reads phi.data
  {
    forall ij :: phi.InBounds(ij) ==> phi.At(ij) == LinearAt(a, b, c, ij)
  }

  /** On a linear field the four neighbours of an interior cell differ from
      it by exactly the slopes. */
  lemma {:induction false} LinearNeighbours(phi: Array2<real>, a: real, b: real, c: real, ij: Index2)
    requires phi.Valid() && Linear(phi, a, b, c) && Interior(phi, ij)
    ensures phi.At(Index2(ij.i - 1, ij.j)) == phi.At(ij) - a
    ensures phi.At(Index2(ij.i + 1, ij.j)) == phi.At(ij) + a
    ensures phi.At(Index2(ij.i, ij.j - 1)) == phi.At(ij) - b
    ensures phi.At(Index2(ij.i, ij.j + 1)) == phi.At(ij) + b
  {
    var l, r, d, u := Index2(ij.i - 1, ij.j), Index2(ij.i + 1, ij.j), Index2(ij.i, ij.j - 1), Index2(ij.i, ij.j + 1);
    assert phi.InBounds(ij) && phi.InBounds(l) && phi.InBounds(r) && phi.InBounds(d) && phi.InBounds(u);
    LinearStep(a, b, c, ij);
  }

  lemma LinearStep(a: real, b: real, c: real, ij: Index2)
    ensures LinearAt(a, b, c, Index2(ij.i - 1, ij.j)) == LinearAt(a, b, c, ij) - a
    ensures LinearAt(a, b, c, Index2(ij.i + 1, ij.j)) == LinearAt(a, b, c, ij) + a
    ensures LinearAt(a, b, c, Index2(ij.i, ij.j - 1)) == LinearAt(a, b, c, ij) - b
    ensures LinearAt(a, b, c, Index2(ij.i, ij.j + 1)) == LinearAt(a, b, c, ij) + b
  {
    var x, y := ij.i as real, ij.j as real;
    assert (ij.i - 1) as real == x - 1.0 && (ij.i + 1) as real == x + 1.0;
    assert (ij.j - 1) as real == y - 1.0 && (ij.j + 1) as real == y + 1.0;
    Step(a, x);
    Step(b, y);
  }

  /** On a linear field either one-sided difference is the slope, so inside
      the band the upwind gradient is (a / h, b / h) whatever the velocity. */
  lemma {:induction false} UpwindLinear(phi: Array2<real>, a: real, b: real, c: real, velocity: Vec2, ij: Index2)
    requires phi.Valid() && Linear(phi, a, b, c) && InBand(phi, ij)
    ensures UpwindGradient(phi, velocity, ij) == Vec2(a / phi.h, b / phi.h)
  {
    LinearNeighbours(phi, a, b, c, ij);
  }

  /** With zero velocity the as-written kernel is defined everywhere (the
      backward y difference is never taken), each axis takes the forward
      difference, and the advection term dot(velocity, gradient) vanishes. */
  lemma {:induction false} UpwindZeroVelocity(phi: Array2<real>, ij: Index2)
    requires phi.Valid()
    ensures AsWrittenStencilInside(phi, Zero(), ij)
    ensures InBandAsWritten(phi, ij) ==>
      UpwindGradientAsWritten(phi, Zero(), ij) ==
        Vec2((phi.At(Index2(ij.i + 1, ij.j)) - phi.At(ij)) / phi.h,
             (phi.At(Index2(ij.i, ij.j + 1)) - phi.At(ij)) / phi.h)
    ensures Dot(Zero(), UpwindGradientAsWritten(phi, Zero(), ij)) == 0.0
  {
  }

  // ---------------------------------------------------------------------
  // Integrators

  /** `forward_euler`: p + vel(p) * dt. */
  function ForwardEuler(p: Vec2, vel: Vec2 -> Vec2, dt: real): (r: Vec2)
    ensures dt == 0.0 || vel(p) == Zero() ==> r == p
  {
    Vec2(p.x + vel(p).x * dt, p.y + vel(p).y * dt)
  }

  /** The RK4 combination (l1 + 2 l2 + 2 l3 + l4) / 6 of four increments. */
  function Rk4Weights(l1: real, l2: real, l3: real, l4: real): (r: real)
    ensures l1 == l2 == l3 == l4 ==> r == l1
  {
    (1.0 / 6.0) * (l1 + 2.0 * l2 + 2.0 * l3 + l4)
  }

  /** `rk4`: each component integrated on its own, with the stage points
      exactly as the code writes them (the fourth x stage is sampled at
      y * dt and the fourth y stage at x * dt). */
  function Rk4(p: Vec2, vel: Vec2 -> Vec2, dt: real): (r: Vec2)
    ensures dt == 0.0 ==> r == p
  {
    var l1 := vel(p).x * dt;
    var l2 := dt * vel(Vec2(p.x + 0.5 * l1, p.y + 0.5 * dt)).x;
    var l3 := dt * vel(Vec2(p.x + 0.5 * l2, p.y + 0.5 * dt)).x;
    var l4 := dt * vel(Vec2(p.x + l3, p.y * dt)).x;
    var k1 := vel(p).y * dt;
    var k2 := dt * vel(Vec2(p.x + 0.5 * dt, p.y + 0.5 * k1)).y;
    var k3 := dt * vel(Vec2(p.x + 0.5 * dt, p.y + 0.5 * k2)).y;
    var k4 := dt * vel(Vec2(p.x * dt, p.y + k3)).y;
    Vec2(p.x + Rk4Weights(l1, l2, l3, l4), p.y + Rk4Weights(k1, k2, k3, k4))
  }

  /** Where the velocity does not depend on position, RK4 and forward Euler
      give the same point. */
  lemma {:induction false} Rk4ConstantIsEuler(p: Vec2, vel: Vec2 -> Vec2, dt: real, c: Vec2)
    requires forall w :: vel(w) == c
    ensures Rk4(p, vel, dt) == ForwardEuler(p, vel, dt)
  {
    assert dt * c.x == c.x * dt && dt * c.y == c.y * dt;
  }

  /** The same on the grids: constant u and v make RK4 and forward Euler
      agree at every position and for every step. */
  lemma {:induction false} Rk4ConstantGridsIsEuler(p: Vec2, vf: VelocityField, dt: real, cu: real, cv: real)
    requires Valid(vf) && Constant(vf.up.data[..], cu) && Constant(vf.vp.data[..], cv)
    ensures Rk4(p, Sampler(vf), dt) == ForwardEuler(p, Sampler(vf), dt)
  {
    forall w
      ensures Sampler(vf)(w) == Vec2(cu, cv)
    {
      SamplerConstant(vf, cu, cv, w);
    }
    Rk4ConstantIsEuler(p, Sampler(vf), dt, Vec2(cu, cv));
  }

  /** A zero time step leaves the position where it is, for both
      integrators. */
  lemma IntegratorsZeroStep(p: Vec2, vel: Vec2 -> Vec2)
    ensures Rk4(p, vel, 0.0) == p && ForwardEuler(p, vel, 0.0) == p
  {
  }

  // ---------------------------------------------------------------------
  // Central gradient and its interpolation

  predicate Interior(field: Array2<real>, ij: Index2)
  {
    1 <= ij.i <= field.sx - 2 && 1 <= ij.j <= field.sy - 2
  }

  /** The value of cell ij in the snapshot vals of a grid. */
  function Cell(field: Array2<real>, vals: seq<real>, ij: Index2): real
    requires Holds(field, vals) && field.InBounds(ij)
  {
    FlatIndexBounds(field.sx, field.sy, ij.i, ij.j);
    vals[field.IndexFromIJ(ij)]
  }

  /** Read from the grid's current contents, a cell is the grid's own. */
  lemma CellIsAt(field: Array2<real>, ij: Index2)
    requires field.Valid() && field.InBounds(ij)
    ensures Cell(field, field.data[..], ij) == field.At(ij)
  {
    var k := field.IndexFromIJ(ij);
    FlatIndexBounds(field.sx, field.sy, ij.i, ij.j);
    assert field.data[..][k] == field.data[k];
  }

  /** `gradient`: the central difference over 2h.  It has no guard of its
      own, and its four reads are in the grid exactly for interior cells. */
  function Gradient(field: Array2<real>, vals: seq<real>, ij: Index2): (g: Vec2)
    requires Holds(field, vals) && Interior(field, ij)
    ensures g.x == 0.0 <==> Cell(field, vals, Index2(ij.i + 1, ij.j)) == Cell(field, vals, Index2(ij.i - 1, ij.j))
    ensures g.y == 0.0 <==> Cell(field, vals, Index2(ij.i, ij.j + 1)) == Cell(field, vals, Index2(ij.i, ij.j - 1))
  {
    var dx := Cell(field, vals, Index2(ij.i + 1, ij.j)) - Cell(field, vals, Index2(ij.i - 1, ij.j));
    var dy := Cell(field, vals, Index2(ij.i, ij.j + 1)) - Cell(field, vals, Index2(ij.i, ij.j - 1));
    Vec2(dx / (2.0 * field.h), dy / (2.0 * field.h))
  }

  /** The central difference is exact on a linear field. */
  lemma {:induction false} GradientLinear(field: Array2<real>, a: real, b: real, c: real, ij: Index2)
    requires field.Valid() && Linear(field, a, b, c) && Interior(field, ij)
    ensures Gradient(field, field.data[..], ij) == Vec2(a / field.h, b / field.h)
  {
    LinearNeighbours(field, a, b, c, ij);
    CellIsAt(field, Index2(ij.i + 1, ij.j));
    CellIsAt(field, Index2(ij.i - 1, ij.j));
    CellIsAt(field, Index2(ij.i, ij.j + 1));
    CellIsAt(field, Index2(ij.i, ij.j - 1));
    var here := field.At(ij);
    assert (here + a) - (here - a) == 2.0 * a;
    assert (here + b) - (here - b) == 2.0 * b;
    HalfOfDouble(a, field.h);
    HalfOfDouble(b, field.h);
  }

  /** Vector `bilerp`: blend along x on both rows, then along y. */
  function BilerpVec(v00: Vec2, v10: Vec2, v01: Vec2, v11: Vec2, f: Vec2): (r: Vec2)
    ensures f == Vec2(0.0, 0.0) ==> r == v00
    ensures v00 == v10 == v01 == v11 ==> r == v00
  {
    var r0 := Plus(Scale(1.0 - f.x, v00), Scale(f.x, v10));
    var r1 := Plus(Scale(1.0 - f.x, v01), Scale(f.x, v11));
    Plus(Scale(1.0 - f.y, r0), Scale(f.y, r1))
  }

  /** At the four unit corners the blend is the corner's value, and equal
      corners blend to that value everywhere. */
  lemma {:induction false} BilerpVecCorners(v00: Vec2, v10: Vec2, v01: Vec2, v11: Vec2, f: Vec2)
    ensures BilerpVec(v00, v10, v01, v11, Vec2(0.0, 0.0)) == v00
    ensures BilerpVec(v00, v10, v01, v11, Vec2(1.0, 0.0)) == v10
    ensures BilerpVec(v00, v10, v01, v11, Vec2(0.0, 1.0)) == v01
    ensures BilerpVec(v00, v10, v01, v11, Vec2(1.0, 1.0)) == v11
    ensures v00 == v10 == v01 == v11 ==> BilerpVec(v00, v10, v01, v11, f) == v00
  {
    if v00 == v10 == v01 == v11 {
      Blend(v00.x, f.x);
      Blend(v00.y, f.x);
      Blend(v00.x, f.y);
      Blend(v00.y, f.y);
    }
  }

  /** The cell whose gradient stencils `interpolate_gradient` reads: the
      truncated grid coordinates of w. */
  function BaseCell(field: Array2<real>, w: Vec2): Index2
    requires field.Valid()
  {
    var c := field.CoordinatesAt(w);
    Index2(Trunc(c.x), Trunc(c.y))
  }

  /** The four gradients `interpolate_gradient` blends are all defined. */
  predicate CanInterpolateGradient(field: Array2<real>, w: Vec2)
    requires field.Valid()
  {
    var b := BaseCell(field, w);
    1 <= b.i <= field.sx - 3 && 1 <= b.j <= field.sy - 3
  }

  /** `interpolate_gradient`: the central gradients at the truncated cell and
      its +1 neighbours, blended by the fractional part. */
  function InterpolateGradient(field: Array2<real>, vals: seq<real>, w: Vec2): (g: Vec2)
    requires Holds(field, vals) && CanInterpolateGradient(field, w)
    ensures Subcell(field.CoordinatesAt(w)) == Vec2(0.0, 0.0) ==> g == Gradient(field, vals, BaseCell(field, w))
  {
    var c := field.CoordinatesAt(w);
    var b := BaseCell(field, w);
    BilerpVec(Gradient(field, vals, b), Gradient(field, vals, Index2(b.i + 1, b.j)),
              Gradient(field, vals, Index2(b.i, b.j + 1)), Gradient(field, vals, Index2(b.i + 1, b.j + 1)),
              Subcell(c))
  }

  /** On a linear field the interpolated gradient is the exact slope. */
  lemma {:induction false} InterpolateGradientLinear(field: Array2<real>, a: real, b: real, c: real, w: Vec2)
    requires field.Valid() && Linear(field, a, b, c) && CanInterpolateGradient(field, w)
    ensures InterpolateGradient(field, field.data[..], w) == Vec2(a / field.h, b / field.h)
  {
    var base := BaseCell(field, w);
    var g := Vec2(a / field.h, b / field.h);
    GradientLinear(field, a, b, c, base);
    GradientLinear(field, a, b, c, Index2(base.i + 1, base.j));
    GradientLinear(field, a, b, c, Index2(base.i, base.j + 1));
    GradientLinear(field, a, b, c, Index2(base.i + 1, base.j + 1));
    BilerpVecCorners(g, g, g, g, Subcell(field.CoordinatesAt(w)));
  }

  // ---------------------------------------------------------------------
  // Helpers

  lemma CellOfConstant(g: Array2<real>, c: real, ij: Index2)
    requires g.Valid() && Constant(g.data[..], c) && g.InBounds(ij)
    ensures g.At(ij) == c
  {
    FlatIndexBounds(g.sx, g.sy, ij.i, ij.j);
  }

  lemma Step(a: real, x: real)
    ensures a * (x - 1.0) == a * x - a && a * (x + 1.0) == a * x + a
  {
  }

  lemma HalfOfDouble(a: real, h: real)
    requires h != 0.0
    ensures (2.0 * a) / (2.0 * h) == a / h
  {
  }

  lemma Blend(a: real, f: real)
    ensures (1.0 - f) * a + f * a == a
  {
  }
}
