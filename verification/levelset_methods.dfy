/** `advect_phi`: one upwind step of the level-set transport equation
    phi_t + vel . grad(phi) = 0, computed into a copy of phi and then copied
    back, so every cell is updated from the values before the step. */
module LevelsetMethods {
  import opened Geometry
  import opened Grids
  import opened VelocityFields
  import opened Calculus

  /** The velocity at the world position of cell ij of phi. */
  function CellVelocity(vel: Vec2 -> Vec2, phi: Array2<real>, ij: Index2): Vec2
    requires phi.Valid() && phi.InBounds(ij)
  {
    vel(phi.WorldspaceOf(Vec2(ij.i as real, ij.j as real)))
  }

  /** The new value of the cell at flat position k:
      phi(ij) - dt * dot(vel, upwind_gradient(phi, vel, ij)). */
  function AdvectedCell(vel: Vec2 -> Vec2, phi: Array2<real>, dt: real, k: int): (r: real)
    requires phi.Valid() && 0 <= k < phi.Size()
    reads phi.data
    ensures !InBand(phi, phi.IJFromIndex(k)) ==> r == phi.data[k]
    ensures dt == 0.0 ==> r == phi.data[k]
  {
    var ij := phi.IJFromIndex(k);
    var velocity := CellVelocity(vel, phi, ij);
    phi.data[k] - dt * Dot(velocity, UpwindGradient(phi, velocity, ij))
  }

  /** Every cell of phi can be advected by the kernel as written under the
      velocity vel: no cell of row 0 inside its band sees an upward
      velocity, which would read row -1 (the asserts of `operator()(i, j)`). */
  predicate AsWrittenDefined(vel: Vec2 -> Vec2, phi: Array2<real>)
    requires phi.Valid()
  {
    forall k :: 0 <= k < phi.Size() ==>
      AsWrittenStencilInside(phi, CellVelocity(vel, phi, phi.IJFromIndex(k)), phi.IJFromIndex(k))
  }

  /** The new value of the cell at flat position k with `upwind_gradient`
      as written: it keeps the cells outside the kernel's band, and off row
      0 it agrees with the corrected kernel. */
  function AdvectedCellAsWritten(vel: Vec2 -> Vec2, phi: Array2<real>, dt: real, k: int): (r: real)
    requires phi.Valid() && 0 <= k < phi.Size()
    requires AsWrittenStencilInside(phi, CellVelocity(vel, phi, phi.IJFromIndex(k)), phi.IJFromIndex(k))
    reads phi.data
    ensures !InBandAsWritten(phi, phi.IJFromIndex(k)) ==> r == phi.data[k]
    ensures dt == 0.0 ==> r == phi.data[k]
    ensures phi.IJFromIndex(k).j != 0 ==> r == AdvectedCell(vel, phi, dt, k)
  {
    var ij := phi.IJFromIndex(k);
    var velocity := CellVelocity(vel, phi, ij);
    UpwindGradientCorrected(phi, velocity, ij);
    phi.data[k] - dt * Dot(velocity, UpwindGradientAsWritten(phi, velocity, ij))
  }

  /** `advect_phi(u, v, phi, dt)` exactly as written, whose kernel also
      updates row 0: every cell becomes its advected value under that
      kernel, all computed from phi as it was before the call. */
  method AdvectPhiAsWritten(u: Array2<real>, v: Array2<real>, phi: Array2<real>, dt: real)
    requires u.Valid() && v.Valid() && phi.Valid()
    requires AsWrittenDefined(Sampler(VelocityField(u, v)), phi)
    modifies phi.data
    ensures forall k :: 0 <= k < phi.Size() ==>
      phi.data[k] == old(AdvectedCellAsWritten(Sampler(VelocityField(u, v)), phi, dt, k))
  {
    AdvectInAsWritten(Sampler(VelocityField(u, v)), phi, dt);
  }

  /** The double buffer of `advect_phi` with the kernel as written. */
  method AdvectInAsWritten(vel: Vec2 -> Vec2, phi: Array2<real>, dt: real)
    requires phi.Valid() && AsWrittenDefined(vel, phi)
    modifies phi.data
    ensures forall k :: 0 <= k < phi.Size() ==> phi.data[k] == old(AdvectedCellAsWritten(vel, phi, dt, k))
  {
    var newPhi := AdvectedCopyAsWritten(vel, phi, dt);
    ghost var advected := newPhi.data[..];
    phi.CopyFrom(newPhi);
    assert forall m :: 0 <= m < phi.Size() ==> phi.data[m] == advected[m];
  }

  /** `new_phi` and the cell loop with the kernel as written. */
  method AdvectedCopyAsWritten(vel: Vec2 -> Vec2, phi: Array2<real>, dt: real) returns (newPhi: Array2<real>)
    requires phi.Valid() && AsWrittenDefined(vel, phi)
    ensures fresh(newPhi) && fresh(newPhi.data) && newPhi.Valid()
    ensures newPhi.sx == phi.sx && newPhi.sy == phi.sy
    ensures forall k :: 0 <= k < phi.Size() ==> newPhi.data[k] == AdvectedCellAsWritten(vel, phi, dt, k)
  {
    ghost var target := seq(phi.Size(), m requires 0 <= m < phi.Size() reads phi.data => AdvectedCellAsWritten(vel, phi, dt, m));
    newPhi := new Array2.Copy(phi);
    var k := 0;
    while k < phi.Size()
      invariant 0 <= k <= phi.Size()
      invariant forall m :: 0 <= m < k ==> newPhi.data[m] == target[m]
      modifies newPhi.data
    {
      var x := AdvectedCellAsWritten(vel, phi, dt, k);
      newPhi.data[k] := x;
      k := k + 1;
    }
  }

  /** Row 0 is where the two differ: at cell (1, 0), with a velocity
      pointing along +x and a level set that changes between cells (0, 0)
      and (1, 0), `advect_phi` as written moves the cell while the corrected
      kernel leaves it unchanged. */
  lemma AdvectedRowZeroDiffers(vel: Vec2 -> Vec2, phi: Array2<real>, dt: real)
    requires phi.Valid() && 3 <= phi.sx && 2 <= phi.sy && dt != 0.0
    requires CellVelocity(vel, phi, Index2(1, 0)).x > 0.0 && CellVelocity(vel, phi, Index2(1, 0)).y == 0.0
    requires phi.At(Index2(1, 0)) != phi.At(Index2(0, 0))
    ensures 1 < phi.Size() && phi.IJFromIndex(1) == Index2(1, 0)
    ensures AdvectedCell(vel, phi, dt, 1) == phi.data[1]
    ensures AdvectedCellAsWritten(vel, phi, dt, 1) != phi.data[1]
  {
    IndexRoundTrip(phi, Index2(1, 0));
    var velocity := CellVelocity(vel, phi, Index2(1, 0));
    var d := phi.At(Index2(1, 0)) - phi.At(Index2(0, 0));
    var g := UpwindGradientAsWritten(phi, velocity, Index2(1, 0));
    assert g.x == d / phi.h;
    NonzeroProduct(d / phi.h, velocity.x);
    assert Dot(velocity, g) == velocity.x * g.x;
    NonzeroProduct(dt, velocity.x * g.x);
  }

  lemma NonzeroProduct(a: real, b: real)
    requires a != 0.0 && b != 0.0
    ensures a * b != 0.0
  {
  }

  /** `advect_phi(u, v, phi, dt)`: with the velocity sampled from u and v,
      every cell becomes its advected value, all of them computed from phi as
      it was before the call; phi keeps its dimensions, offsets and cell
      size. */
  method AdvectPhi(u: Array2<real>, v: Array2<real>, phi: Array2<real>, dt: real)
    requires u.Valid() && v.Valid() && phi.Valid()
    modifies phi.data
    ensures forall k :: 0 <= k < phi.Size() ==>
      phi.data[k] == old(AdvectedCell(Sampler(VelocityField(u, v)), phi, dt, k))
  {
    AdvectIn(Sampler(VelocityField(u, v)), phi, dt);
  }

  /** The double-buffered update of `advect_phi` for a given velocity: the
      advected values are computed into a copy of phi, which is then
      assigned back to phi. */
  method AdvectIn(vel: Vec2 -> Vec2, phi: Array2<real>, dt: real)
    requires phi.Valid()
    modifies phi.data
    ensures forall k :: 0 <= k < phi.Size() ==> phi.data[k] == old(AdvectedCell(vel, phi, dt, k))
  {
    var newPhi := AdvectedCopy(vel, phi, dt);
    ghost var advected := newPhi.data[..];
    phi.CopyFrom(newPhi);
    assert forall m :: 0 <= m < phi.Size() ==> phi.data[m] == advected[m];
  }

  /** `Array2f new_phi(phi)` and the loop over its cells: a fresh grid of
      phi's shape holding the advected value of every cell. */
  method AdvectedCopy(vel: Vec2 -> Vec2, phi: Array2<real>, dt: real) returns (newPhi: Array2<real>)
    requires phi.Valid()
    ensures fresh(newPhi) && fresh(newPhi.data) && newPhi.Valid()
    ensures newPhi.sx == phi.sx && newPhi.sy == phi.sy
    ensures forall k :: 0 <= k < phi.Size() ==> newPhi.data[k] == AdvectedCell(vel, phi, dt, k)
  {
    ghost var target := seq(phi.Size(), m requires 0 <= m < phi.Size() reads phi.data => AdvectedCell(vel, phi, dt, m));
    newPhi := new Array2.Copy(phi);
    var k := 0;
    while k < phi.Size()
      invariant 0 <= k <= phi.Size()
      invariant forall m :: 0 <= m < k ==> newPhi.data[m] == target[m]
      modifies newPhi.data
    {
      var x := AdvectedCell(vel, phi, dt, k);
      newPhi.data[k] := x;
      k := k + 1;
    }
  }

  /** Cells outside the corrected band keep their value. */
  lemma {:induction false} AdvectedOutsideBand(vel: Vec2 -> Vec2, phi: Array2<real>, dt: real, k: int)
    requires phi.Valid() && 0 <= k < phi.Size()
    requires !InBand(phi, phi.IJFromIndex(k))
    ensures AdvectedCell(vel, phi, dt, k) == phi.data[k]
  {
  }

  /** A zero time step changes no cell. */
  lemma AdvectedZeroStep(vel: Vec2 -> Vec2, phi: Array2<real>, k: int)
    requires phi.Valid() && 0 <= k < phi.Size()
    ensures AdvectedCell(vel, phi, 0.0, k) == phi.data[k]
  {
  }

  /** A still velocity field changes no cell; u and v grids that are zero
      everywhere give one. */
  lemma {:induction false} AdvectedStillField(vel: Vec2 -> Vec2, phi: Array2<real>, dt: real, k: int)
    requires phi.Valid() && 0 <= k < phi.Size()
    requires forall w :: vel(w) == Zero()
    ensures AdvectedCell(vel, phi, dt, k) == phi.data[k]
  {
  }

  lemma {:induction false} ZeroGridsAreStill(u: Array2<real>, v: Array2<real>, w: Vec2)
    requires u.Valid() && v.Valid() && Constant(u.data[..], 0.0) && Constant(v.data[..], 0.0)
    ensures Sampler(VelocityField(u, v))(w) == Zero()
  {
    SamplerConstant(VelocityField(u, v), 0.0, 0.0, w);
  }

  /** A constant level set is a fixed point of advection, whatever the
      velocity. */
  lemma {:induction false} AdvectedConstantPhi(vel: Vec2 -> Vec2, phi: Array2<real>, dt: real, c: real, k: int)
    requires phi.Valid() && 0 <= k < phi.Size()
    requires Constant(phi.data[..], c)
    ensures AdvectedCell(vel, phi, dt, k) == phi.data[k]
  {
    var ij := phi.IJFromIndex(k);
    UpwindConstant(phi, c, CellVelocity(vel, phi, ij), ij);
  }

  /** The same three fixed points for `advect_phi` as written, row 0 of its
      band included: a zero step, a still velocity field (under which every
      cell can be advected) and a constant level set change no cell. */
  lemma AdvectedZeroStepAsWritten(vel: Vec2 -> Vec2, phi: Array2<real>, k: int)
    requires phi.Valid() && 0 <= k < phi.Size()
    requires AsWrittenStencilInside(phi, CellVelocity(vel, phi, phi.IJFromIndex(k)), phi.IJFromIndex(k))
    ensures AdvectedCellAsWritten(vel, phi, 0.0, k) == phi.data[k]
  {
  }

  lemma {:induction false} AdvectedStillFieldAsWritten(vel: Vec2 -> Vec2, phi: Array2<real>, dt: real, k: int)
    requires phi.Valid() && 0 <= k < phi.Size()
    requires forall w :: vel(w) == Zero()
    ensures AsWrittenDefined(vel, phi)
    ensures AdvectedCellAsWritten(vel, phi, dt, k) == phi.data[k]
  {
    forall m | 0 <= m < phi.Size()
      ensures AsWrittenStencilInside(phi, CellVelocity(vel, phi, phi.IJFromIndex(m)), phi.IJFromIndex(m))
    {
      assert CellVelocity(vel, phi, phi.IJFromIndex(m)) == Zero();
    }
    StillCellAsWritten(vel, phi, dt, k);
  }

  /** A cell whose own velocity is zero keeps its value. */
  lemma {:induction false} StillCellAsWritten(vel: Vec2 -> Vec2, phi: Array2<real>, dt: real, k: int)
    requires phi.Valid() && 0 <= k < phi.Size()
    requires CellVelocity(vel, phi, phi.IJFromIndex(k)) == Zero()
    ensures AsWrittenStencilInside(phi, CellVelocity(vel, phi, phi.IJFromIndex(k)), phi.IJFromIndex(k))
    ensures AdvectedCellAsWritten(vel, phi, dt, k) == phi.data[k]
  {
    UpwindZeroVelocity(phi, phi.IJFromIndex(k));
  }

  lemma {:induction false} AdvectedConstantPhiAsWritten(vel: Vec2 -> Vec2, phi: Array2<real>, dt: real, c: real, k: int)
    requires phi.Valid() && 0 <= k < phi.Size() && Constant(phi.data[..], c)
    requires AsWrittenStencilInside(phi, CellVelocity(vel, phi, phi.IJFromIndex(k)), phi.IJFromIndex(k))
    ensures AdvectedCellAsWritten(vel, phi, dt, k) == phi.data[k]
  {
    var ij := phi.IJFromIndex(k);
    UpwindConstantAsWritten(phi, c, CellVelocity(vel, phi, ij), ij);
  }

  /** Inside the band, a linear level set a * i + b * j + c moves by
      dt * (vel.x a + vel.y b) / h, the exact transport of a plane. */
  lemma {:induction false} AdvectedLinearPhi(vel: Vec2 -> Vec2, phi: Array2<real>, dt: real,
                                             a: real, b: real, c: real, k: int)
    requires phi.Valid() && 0 <= k < phi.Size()
    requires Linear(phi, a, b, c) && InBand(phi, phi.IJFromIndex(k))
    ensures var velocity := CellVelocity(vel, phi, phi.IJFromIndex(k));
      AdvectedCell(vel, phi, dt, k) == phi.data[k] - dt * (velocity.x * (a / phi.h) + velocity.y * (b / phi.h))
  {
    var ij := phi.IJFromIndex(k);
    UpwindLinear(phi, a, b, c, CellVelocity(vel, phi, ij), ij);
  }
}
