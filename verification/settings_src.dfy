/** `initialize_boundaries` of the earlier version: only the bottom and the
    top rows of the solid level set become solid (-0.5); every other cell
    keeps the value it had. */
module SettingsSrc {
  import opened Grids
  import opened Simulations
  import opened Settings

  /** The earlier solid level set at a cell whose value was prev. */
  function FloorCeilingValue(ij: Index2, sy: int, prev: real): real
  {
    if OnFloorOrCeiling(ij, sy) then -0.5 else prev
  }

  /** `initialize_boundaries(sim)`: the row loop alone, over the solid
      level set as `init` left it. */
  method InitializeBoundaries(sim: Simulation)
    requires sim.Valid()
    modifies sim.solidPhi.data
    ensures forall k :: 0 <= k < sim.solidPhi.data.Length ==>
      sim.solidPhi.data[k] == FloorCeilingValue(sim.solidPhi.IJFromIndex(k), sim.sy, old(sim.solidPhi.data[k]))
  {
    WallRows(sim.solidPhi);
  }

  /** On the cleared solid level set `init` leaves, the earlier version
      makes the floor and the ceiling solid and leaves the side columns at
      zero, so it differs from the later version exactly on the side cells
      off the floor and the ceiling (and, by 0.5 h, in the open interior). */
  lemma {:induction false} SidesStayOpen(ij: Index2, sx: int, sy: int, h: real)
    requires 0.0 < h
    ensures FloorCeilingValue(ij, sy, 0.0) < 0.0 <==> OnFloorOrCeiling(ij, sy)
    ensures OnSide(ij, sx) && !OnFloorOrCeiling(ij, sy) ==>
      FloorCeilingValue(ij, sy, 0.0) == 0.0 && WalledValue(ij, sx, sy, h) == -0.5
    ensures OnFloorOrCeiling(ij, sy) ==> FloorCeilingValue(ij, sy, 0.0) == WalledValue(ij, sx, sy, h)
  {
  }
}
