/** The simulation domain: `sx` by `sy` cells of size `h`, the staggered
    velocity grids (u on the vertical faces, v on the horizontal ones), the
    centre-sampled pressure, solid level set and fluid map, the fluids, and
    the clock of the run loop. */
module Simulations {
  import opened Geometry
  import opened Grids
  import opened VelocityFields
  import opened FluidsSrc

  /** The threshold `get_fluid_ids` starts every cell's minimum at. */
  const NoFluidPhi: real := 99999.9

  class Simulation {
    var sx: int
    var sy: int
    var h: real
    var timeElapsed: real
    var maxT: real
    var timestep: real
    var frameNumber: int
    /** The grids exist from `init` on; before that the source's grids are
        empty. */
    var u: Array2?<real>
    var v: Array2?<real>
    var p: Array2?<real>
    /** The velocity field's grid references: unset until `init` points
        them at u and v. */
    var vel: Option<VelocityField>
    var fluids: seq<Fluid>
    var solidPhi: Array2?<real>
    var fluidId: Array2?<int>

    /** The layout `init` sets up: u is (sx + 1) x sy at offset (0, -0.5),
        v is sx x (sy + 1) at offset (-0.5, 0), p, solid_phi and fluid_id
        are sx x sy at offset (-0.5, -0.5), all with cell size h; the
        velocity field refers to u and v, and every fluid lives on the same
        sx x sy cells. */
    ghost predicate Valid()
      reads this
    {
      1 <= sx && 1 <= sy && 0.0 < h &&
      u != null && v != null && p != null && solidPhi != null && fluidId != null &&
      Placed(u, sx + 1, sy, 0.0, -0.5, h) && Placed(v, sx, sy + 1, -0.5, 0.0, h) &&
      Placed(p, sx, sy, -0.5, -0.5, h) && Placed(solidPhi, sx, sy, -0.5, -0.5, h) &&
      fluidId.Valid() && fluidId.sx == sx && fluidId.sy == sy && fluidId.zero == 0 &&
      fluidId.offsetX == -0.5 && fluidId.offsetY == -0.5 && fluidId.h == h &&
      vel == Some(VelocityField(u, v)) &&
      forall n :: 0 <= n < |fluids| ==> OnCells(fluids[n], sx, sy, h)
    }

    /** `Simulation(sx, sy, h)`: the dimensions only; the clock is at zero
        and there are no grids and no fluids yet. */
    constructor (sx: int, sy: int, h: real)
      ensures this.sx == sx && this.sy == sy && this.h == h
      ensures timeElapsed == 0.0 && maxT == 0.0 && timestep == 0.0 && frameNumber == 0
      ensures u == null && v == null && p == null && solidPhi == null && fluidId == null
      ensures vel == None && fluids == []
    {
      this.sx, this.sy, this.h := sx, sy, h;
      timeElapsed, maxT, timestep, frameNumber := 0.0, 0.0, 0.0, 0;
      u, v, p, solidPhi, fluidId, vel := null, null, null, null, null, None;
      fluids := [];
    }

    /** `init()`: fresh zero grids in the staggered layout, and the velocity
        field pointed at u and v.  The dimensions, clock and fluids are
        untouched. */
    method Init()
      requires 1 <= sx && 1 <= sy && 0.0 < h
      requires forall n :: 0 <= n < |fluids| ==> OnCells(fluids[n], sx, sy, h)
      modifies this
      ensures Valid()
      ensures fresh(u) && fresh(v) && fresh(p) && fresh(solidPhi) && fresh(fluidId)
      ensures Cleared(u) && Cleared(v) && Cleared(p) && Cleared(solidPhi) && Cleared(fluidId)
      ensures sx == old(sx) && sy == old(sy) && h == old(h) && fluids == old(fluids)
      ensures timeElapsed == old(timeElapsed) && maxT == old(maxT) && timestep == old(timestep)
      ensures frameNumber == old(frameNumber)
    {
      var u', v', p', solid, ids := NewGrids(sx, sy, h);
      u, v, p, solidPhi, fluidId, vel := u', v', p', solid, ids, Some(VelocityField(u', v'));
    }

    /** `init(sx, sy, h, max_t, dt)`: store the dimensions, the run length
        and the time step, then `init()`. */
    method InitWith(sx: int, sy: int, h: real, maxT: real, dt: real)
      requires 1 <= sx && 1 <= sy && 0.0 < h
      requires forall n :: 0 <= n < |fluids| ==> OnCells(fluids[n], sx, sy, h)
      modifies this
      ensures Valid()
      ensures this.sx == sx && this.sy == sy && this.h == h && this.maxT == maxT && timestep == dt
      ensures fresh(u) && fresh(v) && fresh(p) && fresh(solidPhi) && fresh(fluidId)
      ensures Cleared(u) && Cleared(v) && Cleared(p) && Cleared(solidPhi) && Cleared(fluidId)
      ensures fluids == old(fluids) && timeElapsed == old(timeElapsed) && frameNumber == old(frameNumber)
    {
      this.sx, this.sy, this.h := sx, sy, h;
      this.maxT, timestep := maxT, dt;
      Init();
    }

    /** `add_fluid(density)`: one new fluid of that density on the
        simulation's cells is appended; the others stay as they are.  The
        fluid's vertex grids need at least two cells along each axis. */
    method AddFluid(density: real)
      requires Valid() && 2 <= sx && 2 <= sy
      modifies this
      ensures Valid()
      ensures |fluids| == |old(fluids)| + 1 && fluids[..|old(fluids)|] == old(fluids)
      ensures var f := fluids[|fluids| - 1];
        fresh(f) && f.density == density && f.particles == [] && OnCells(f, sx, sy, h) &&
        (forall k :: 0 <= k < f.phi.Size() ==> f.phi.data[k] == 0.0) &&
        forall k :: 0 <= k < f.plsPhi.Size() ==> f.plsPhi.data[k] == 0.0 && f.particleCount.data[k] == 0
      ensures sx == old(sx) && sy == old(sy) && h == old(h) && u == old(u) && v == old(v) && p == old(p)
      ensures solidPhi == old(solidPhi) && fluidId == old(fluidId) && vel == old(vel)
      ensures timeElapsed == old(timeElapsed) && maxT == old(maxT) && timestep == old(timestep)
      ensures frameNumber == old(frameNumber)
    {
      var f := new Fluid(density, sx, sy, h);
      fluids := fluids + [f];
    }

    /** `advance(dt)`: no step is implemented; nothing changes. */
    method Advance(dt: real)
      ensures unchanged(this)
    {
    }

    /** What the run loop keeps: everything but the clock and the step. */
    twostate predicate ClockOnly()
      reads this
    {
      sx == old(sx) && sy == old(sy) && h == old(h) && maxT == old(maxT) && frameNumber == old(frameNumber) &&
      u == old(u) && v == old(v) && p == old(p) && vel == old(vel) && fluids == old(fluids) &&
      solidPhi == old(solidPhi) && fluidId == old(fluidId)
    }

    /** `run()`: advance by the time step until the elapsed time reaches
        max_t, shrinking the last step so that it lands on max_t exactly.
        The shrunk step stays in `timestep`.  A clock already at max_t
        returns at once, whatever the step (the constructor's all-zero
        state); otherwise the step must be positive for the loop to end. */
    method Run()
      requires timeElapsed < maxT ==> 0.0 < timestep
      modifies this
      ensures old(timeElapsed) < maxT ==> timeElapsed == maxT
      ensures maxT <= old(timeElapsed) ==> timeElapsed == old(timeElapsed) && timestep == old(timestep)
      ensures old(timeElapsed) < maxT ==> 0.0 < timestep <= old(timestep)
      ensures ClockOnly()
    {
      while timeElapsed < maxT
        invariant ClockOnly()
        invariant old(timeElapsed) < maxT ==> timeElapsed <= maxT
        invariant maxT <= old(timeElapsed) ==> timeElapsed == old(timeElapsed) && timestep == old(timestep)
        invariant old(timeElapsed) < maxT ==> 0.0 < timestep <= old(timestep)
        decreases if timeElapsed < maxT && 0.0 < timestep then StepsLeft(timeElapsed, maxT, timestep) else 0
      {
        ghost var t0, dt0 := timeElapsed, timestep;
        if timeElapsed + timestep > maxT {
          timestep := maxT - timeElapsed;
        }
        Advance(timestep);
        timeElapsed := timeElapsed + timestep;
        StepCounts(t0, maxT, dt0, timestep);
      }
    }

    /** `get_fluid_ids()`: every cell records the lowest-numbered fluid of
        least phi there, if that least phi is below 99999.9; otherwise the
        cell keeps its previous id.  No fluid is changed. */
    method GetFluidIds()
      requires Valid()
      modifies fluidId.data
      ensures forall k :: 0 <= k < fluidId.data.Length ==>
        fluidId.data[k] == Winner(PhiColumn(old(PhiValues(fluids)), k), |fluids|, old(fluidId.data[k]))
    {
      var minPhi := new Array2(sx, sy, -0.5, -0.5, h, 0.0);
      minPhi.Set(NoFluidPhi);
      VisitFluids(fluids, minPhi, fluidId, PhiValues(fluids));
    }
  }

  /** The five fresh zero grids of `init()` in the staggered layout. */
  method NewGrids(sx: int, sy: int, h: real)
    returns (u: Array2<real>, v: Array2<real>, p: Array2<real>, solidPhi: Array2<real>, fluidId: Array2<int>)
    requires 1 <= sx && 1 <= sy && 0.0 < h
    ensures fresh(u) && fresh(v) && fresh(p) && fresh(solidPhi) && fresh(fluidId)
    ensures Placed(u, sx + 1, sy, 0.0, -0.5, h) && Placed(v, sx, sy + 1, -0.5, 0.0, h)
    ensures Placed(p, sx, sy, -0.5, -0.5, h) && Placed(solidPhi, sx, sy, -0.5, -0.5, h)
    ensures fluidId.Valid() && fluidId.sx == sx && fluidId.sy == sy && fluidId.zero == 0
    ensures fluidId.offsetX == -0.5 && fluidId.offsetY == -0.5 && fluidId.h == h
    ensures Cleared(u) && Cleared(v) && Cleared(p) && Cleared(solidPhi) && Cleared(fluidId)
  {
    u := new Array2(sx + 1, sy, 0.0, -0.5, h, 0.0);
    v := new Array2(sx, sy + 1, -0.5, 0.0, h, 0.0);
    p := new Array2(sx, sy, -0.5, -0.5, h, 0.0);
    solidPhi := new Array2(sx, sy, -0.5, -0.5, h, 0.0);
    fluidId := new Array2(sx, sy, -0.5, -0.5, h, 0);
  }

  /** Every value of the grid is its type's zero. */
  ghost predicate Cleared<T(0)>(g: Array2<T>)
    reads g.data
  {
    forall k :: 0 <= k < g.data.Length ==> g.data[k] == g.zero
  }

  /** The grid has the given shape, placement and cell size. */
  ghost predicate Placed(g: Array2<real>, sx: int, sy: int, offsetX: real, offsetY: real, h: real)
  {
    g.Valid() && g.sx == sx && g.sy == sy && g.offsetX == offsetX && g.offsetY == offsetY && g.h == h &&
    g.zero == 0.0
  }

  /** The fluid's grids cover the simulation's sx x sy cells of size h. */
  ghost predicate OnCells(f: Fluid, sx: int, sy: int, h: real)
  {
    f.Valid() && f.phi.sx == sx && f.phi.sy == sy && f.phi.h == h
  }

  /** The phi values of every fluid, fluid by fluid. */
  function PhiValues(fluids: seq<Fluid>): (phis: seq<seq<real>>)
    reads set n | 0 <= n < |fluids| :: fluids[n].phi.data
    ensures |phis| == |fluids|
    ensures forall n :: 0 <= n < |fluids| ==> phis[n] == fluids[n].phi.data[..]
  {
    if fluids == [] then []
    else PhiValues(fluids[..|fluids| - 1]) + [fluids[|fluids| - 1].phi.data[..]]
  }

  /** The phi of every fluid at cell k. */
  function PhiColumn(phis: seq<seq<real>>, k: int): (col: seq<real>)
    requires 0 <= k && forall n :: 0 <= n < |phis| ==> k < |phis[n]|
    ensures |col| == |phis| && forall n :: 0 <= n < |phis| ==> col[n] == phis[n][k]
  {
    if phis == [] then []
    else PhiColumn(phis[..|phis| - 1], k) + [phis[|phis| - 1][k]]
  }

  /** `min_phi` at a cell after fluids 0 .. n - 1, whose phi values there
      are col: the smallest of them that beats the starting 99999.9. */
  function Least(col: seq<real>, n: int): real
    requires 0 <= n <= |col|
  {
    if n == 0 then NoFluidPhi
    else if col[n - 1] < Least(col, n - 1) then col[n - 1]
    else Least(col, n - 1)
  }

  /** `fluid_id` at a cell after fluids 0 .. n - 1, starting from prev. */
  function Winner(col: seq<real>, n: int, prev: int): int
    requires 0 <= n <= |col|
  {
    if n == 0 then prev
    else if col[n - 1] < Least(col, n - 1) then n - 1
    else Winner(col, n - 1, prev)
  }

  /** The fluid loop of `get_fluid_ids` over fluids whose phi values are
      phis, with min_phi starting at 99999.9 everywhere. */
  method VisitFluids(fluids: seq<Fluid>, minPhi: Array2<real>, fluidId: Array2<int>, ghost phis: seq<seq<real>>)
    requires minPhi.data.Length == fluidId.data.Length
    requires |phis| == |fluids|
    requires forall m :: 0 <= m < |fluids| ==>
      fluids[m].phi.data.Length == fluidId.data.Length && fluids[m].phi.data != minPhi.data &&
      phis[m] == fluids[m].phi.data[..]
    requires forall k :: 0 <= k < minPhi.data.Length ==> minPhi.data[k] == NoFluidPhi
    modifies minPhi.data, fluidId.data
    ensures forall k :: 0 <= k < fluidId.data.Length ==>
      fluidId.data[k] == Winner(PhiColumn(phis, k), |fluids|, old(fluidId.data[k]))
  {
    ghost var prev := fluidId.data[..];
    var n := 0;
    while n < |fluids|
      invariant 0 <= n <= |fluids|
      invariant forall m :: 0 <= m < |fluids| ==> phis[m] == fluids[m].phi.data[..]
      invariant forall k :: 0 <= k < fluidId.data.Length ==>
        minPhi.data[k] == Least(PhiColumn(phis, k), n) &&
        fluidId.data[k] == Winner(PhiColumn(phis, k), n, prev[k])
    {
      VisitFluid(fluids[n].phi.data, n, minPhi.data, fluidId.data, phis, prev);
      n := n + 1;
    }
  }

  /** The cell loop of `get_fluid_ids` for fluid n, whose phi values are
      phi: every cell where phi beats the running minimum takes it and
      records n. */
  method VisitFluid(phi: array<real>, n: int, minPhi: array<real>, fluidId: array<int>,
                    ghost phis: seq<seq<real>>, ghost prev: seq<int>)
    requires 0 <= n < |phis| && phis[n] == phi[..] && phi != minPhi
    requires minPhi.Length == phi.Length && fluidId.Length == phi.Length && |prev| == phi.Length
    requires forall m :: 0 <= m < |phis| ==> |phis[m]| == phi.Length
    requires forall k :: 0 <= k < phi.Length ==>
      minPhi[k] == Least(PhiColumn(phis, k), n) && fluidId[k] == Winner(PhiColumn(phis, k), n, prev[k])
    modifies minPhi, fluidId
    ensures forall k :: 0 <= k < phi.Length ==>
      minPhi[k] == Least(PhiColumn(phis, k), n + 1) && fluidId[k] == Winner(PhiColumn(phis, k), n + 1, prev[k])
  {
    var k := 0;
    while k < phi.Length
      invariant 0 <= k <= phi.Length && phi[..] == phis[n]
      invariant forall c :: 0 <= c < phi.Length ==>
        minPhi[c] == Least(PhiColumn(phis, c), if c < k then n + 1 else n) &&
        fluidId[c] == Winner(PhiColumn(phis, c), if c < k then n + 1 else n, prev[c])
    {
      if phi[k] < minPhi[k] {
        minPhi[k] := phi[k];
        fluidId[k] := n;
      }
      k := k + 1;
    }
  }

  /** The remaining number of steps of the run loop, which every pass
      lowers. */
  function StepsLeft(t: real, maxT: real, dt: real): nat
    requires 0.0 < dt
  {
    if t < maxT then ((maxT - t) / dt).Floor + 1 else 0
  }

  /** A pass either advances by the full step dt, ending at or before
      max_t, or by the shrunk step that lands on max_t; either way the
      count of steps left goes down. */
  lemma StepCounts(t: real, maxT: real, dt: real, step: real)
    requires 0.0 < step <= dt && t < maxT
    requires (step == dt && t + dt <= maxT) || t + step == maxT
    ensures StepsLeft(t + step, maxT, step) < StepsLeft(t, maxT, dt)
  {
    if t + step < maxT {
      assert maxT - (t + dt) == (maxT - t) - dt;
      QuotientStep(maxT - t, dt);
    }
  }

  /** Taking one d off x takes one off x / d. */
  lemma QuotientStep(x: real, d: real)
    requires 0.0 < d
    ensures (x - d) / d == x / d - 1.0
  {
    var q, r := (x - d) / d, x / d;
    assert q * d == x - d && r * d == x;
    var e := q - (r - 1.0);
    assert e * d == 0.0;
    MulDivCancel(e, d);
  }

  /** The id `get_fluid_ids` records is the argmin: when some fluid's phi
      at the cell is below 99999.9, the id names a fluid whose phi there is
      the least, below 99999.9, and strictly below that of every
      lower-numbered fluid; otherwise the cell keeps prev. */
  lemma {:induction false} WinnerIsArgmin(col: seq<real>, n: int, prev: int)
    requires 0 <= n <= |col|
    ensures Least(col, n) <= NoFluidPhi
    ensures (exists m :: 0 <= m < n && col[m] < NoFluidPhi) ==>
      var w := Winner(col, n, prev);
      0 <= w < n && col[w] == Least(col, n) && col[w] < NoFluidPhi &&
      (forall m :: 0 <= m < n ==> col[w] <= col[m]) &&
      (forall m :: 0 <= m < w ==> col[w] < col[m])
    ensures (forall m :: 0 <= m < n ==> NoFluidPhi <= col[m]) ==>
      Winner(col, n, prev) == prev && Least(col, n) == NoFluidPhi
    decreases n
  {
    if n > 0 {
      WinnerIsArgmin(col, n - 1, prev);
      LeastBelow(col, n - 1);
    }
  }

  /** The running minimum is at most every phi seen so far, and it is one
      of them unless it is still 99999.9. */
  lemma {:induction false} LeastBelow(col: seq<real>, n: int)
    requires 0 <= n <= |col|
    ensures forall m :: 0 <= m < n ==> Least(col, n) <= col[m]
    ensures Least(col, n) == NoFluidPhi || exists m :: 0 <= m < n && Least(col, n) == col[m]
    decreases n
  {
    if n > 0 {
      LeastBelow(col, n - 1);
    }
  }
}
