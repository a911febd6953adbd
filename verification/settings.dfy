/** `initialize_boundaries` of the later version: the solid level set is
    0.5 h (open) everywhere except on the ring of cells along the four
    walls of the domain, which are solid (-0.5). */
module Settings {
  import opened Grids
  import opened Simulations

  /** Cell ij lies in the bottom or the top row of an sx x sy domain. */
  predicate OnFloorOrCeiling(ij: Index2, sy: int)
  {
    ij.j == 0 || ij.j == sy - 1
  }

  /** Cell ij lies in the leftmost or the rightmost column. */
  predicate OnSide(ij: Index2, sx: int)
  {
    ij.i == 0 || ij.i == sx - 1
  }

  /** Cell ij lies on the ring of cells along the four walls. */
  predicate OnRing(ij: Index2, sx: int, sy: int)
  {
    OnFloorOrCeiling(ij, sy) || OnSide(ij, sx)
  }

  /** The solid level set `initialize_boundaries` leaves at cell ij. */
  function WalledValue(ij: Index2, sx: int, sy: int, h: real): (r: real)
    ensures 0.0 < h ==> (r < 0.0 <==> OnRing(ij, sx, sy))
    ensures OnRing(ij, sx, sy) ==> r == -0.5
    ensures !OnRing(ij, sx, sy) ==> r == h / 2.0
  {
    if OnRing(ij, sx, sy) then -0.5 else 0.5 * h
  }

  /** With a positive cell size a cell is solid (its value at most zero)
      exactly when it lies on the ring along the walls, and the open cells
      are half a cell away from the solid. */
  lemma SolidExactlyOnRing(ij: Index2, sx: int, sy: int, h: real)
    requires 0.0 < h
    ensures WalledValue(ij, sx, sy, h) <= 0.0 <==> OnRing(ij, sx, sy)
    ensures WalledValue(ij, sx, sy, h) < 0.0 <==> OnRing(ij, sx, sy)
    ensures !OnRing(ij, sx, sy) ==> WalledValue(ij, sx, sy, h) == h / 2.0
  {
  }

  /** A cell off the ring has its four neighbours inside the grid: the open
      region is enclosed by solid cells. */
  lemma {:induction false} OpenCellsEnclosed(ij: Index2, sx: int, sy: int)
    requires 0 <= ij.i < sx && 0 <= ij.j < sy && !OnRing(ij, sx, sy)
    ensures 0 <= ij.i - 1 && ij.i + 1 < sx && 0 <= ij.j - 1 && ij.j + 1 < sy
    ensures 3 <= sx && 3 <= sy
  {
  }

  /** `initialize_boundaries(sim)`: solid_phi is set to 0.5 h, then the
      bottom and top rows and the left and right columns become -0.5. */
  method InitializeBoundaries(sim: Simulation)
    requires sim.Valid()
    modifies sim.solidPhi.data
    ensures forall k :: 0 <= k < sim.solidPhi.data.Length ==>
      sim.solidPhi.data[k] == WalledValue(sim.solidPhi.IJFromIndex(k), sim.sx, sim.sy, sim.h)
  {
    var g := sim.solidPhi;
    g.Set(0.5 * g.h);
    WallRows(g);
    WallColumns(g);
  }

  /** The row loop: cells (i, 0) and (i, sy - 1) become -0.5 for every i,
      every other cell keeps its value. */
  method WallRows(g: Array2<real>)
    requires g.Valid()
    modifies g.data
    ensures forall k :: 0 <= k < g.data.Length ==>
      g.data[k] == if OnFloorOrCeiling(g.IJFromIndex(k), g.sy) then -0.5 else old(g.data[k])
  {
    var i := 0;
    while i < g.sx
      invariant 0 <= i <= g.sx
      invariant forall k :: 0 <= k < g.data.Length ==>
        g.data[k] == if OnFloorOrCeiling(g.IJFromIndex(k), g.sy) && g.IJFromIndex(k).i < i then -0.5 else old(g.data[k])
    {
      WriteCell(g, Index2(i, 0), -0.5);
      WriteCell(g, Index2(i, g.sy - 1), -0.5);
      i := i + 1;
    }
  }

  /** The column loop: cells (0, j) and (sx - 1, j) become -0.5 for every
      j, every other cell keeps its value. */
  method WallColumns(g: Array2<real>)
    requires g.Valid()
    modifies g.data
    ensures forall k :: 0 <= k < g.data.Length ==>
      g.data[k] == if OnSide(g.IJFromIndex(k), g.sx) then -0.5 else old(g.data[k])
  {
    var j := 0;
    while j < g.sy
      invariant 0 <= j <= g.sy
      invariant forall k :: 0 <= k < g.data.Length ==>
        g.data[k] == if OnSide(g.IJFromIndex(k), g.sx) && g.IJFromIndex(k).j < j then -0.5 else old(g.data[k])
    {
      WriteCell(g, Index2(0, j), -0.5);
      WriteCell(g, Index2(g.sx - 1, j), -0.5);
      j := j + 1;
    }
  }

  /** `solid_phi(i, j) = x`, stated cell by cell: cell ij holds x and every
      other cell keeps its value. */
  method WriteCell(g: Array2<real>, ij: Index2, x: real)
    requires g.Valid() && g.InBounds(ij)
    modifies g.data
    ensures forall k :: 0 <= k < g.data.Length ==>
      g.data[k] == if g.IJFromIndex(k) == ij then x else old(g.data[k])
  {
    IndexRoundTrip(g, ij);
    g.Write(ij, x);
  }
}
