/** The earlier starting level sets: one shape descriptor per fluid, whose
    signed value is written into every cell of the cleared phi, with a
    plane measured as the height above p1; a shape other than a circle or
    a plane aborts the program. */
module LevelsetConstructorsSrc {
  import opened Geometry
  import opened Grids
  import opened FluidsSrc
  import LC = LevelsetConstructors

  /** `compute_phi_plane`: the height above p1, plus a jitter drawn in
      [-p2, p2] by the unit draw u. */
  function ComputePhiPlane(p: Vec2, c: LC.FluidConfig, u: real): (r: real)
    ensures 0.0 <= u <= 1.0 ==> p.y - c.p1 - Abs(c.p2) <= r <= p.y - c.p1 + Abs(c.p2)
  {
    p.y - c.p1 + LinearRand(-c.p2, c.p2, u)
  }

  /** The plane's phi stays within |p2| of the height above p1: it is
      negative below p1 - |p2| and positive above p1 + |p2|, and without
      jitter it is exactly the height above p1. */
  lemma {:induction false} PlaneHeight(p: Vec2, c: LC.FluidConfig, u: real)
    requires 0.0 <= u <= 1.0
    ensures Abs(ComputePhiPlane(p, c, u) - (p.y - c.p1)) <= Abs(c.p2)
    ensures p.y < c.p1 - Abs(c.p2) ==> ComputePhiPlane(p, c, u) < 0.0
    ensures c.p1 + Abs(c.p2) < p.y ==> 0.0 < ComputePhiPlane(p, c, u)
    ensures c.p2 == 0.0 ==> ComputePhiPlane(p, c, u) == p.y - c.p1
  {
    var j := LinearRand(-c.p2, c.p2, u);
    assert Abs(j) <= Abs(c.p2);
  }

  /** The shapes the single descriptor handles. */
  predicate Handled(name: string)
  {
    name == "circle" || name == "plane"
  }

  /** The value written at sample point pos for a handled descriptor: the
      circle's or the plane's phi, negated when c.negate. */
  function SignedValue(c: LC.FluidConfig, pos: Vec2, u: real, math: MathLib): (r: real)
    requires Handled(c.name)
    ensures c.name == "circle" ==> Abs(r) == Abs(LC.ComputePhiSphere(pos, c, math))
    ensures c.name == "plane" ==> Abs(r) == Abs(ComputePhiPlane(pos, c, u))
    ensures !c.negate && c.name == "circle" ==> r == LC.ComputePhiSphere(pos, c, math)
    ensures !c.negate && c.name == "plane" ==> r == ComputePhiPlane(pos, c, u)
  {
    var v := if c.name == "circle" then LC.ComputePhiSphere(pos, c, math) else ComputePhiPlane(pos, c, u);
    if c.negate then -v else v
  }

  /** `construct_levelset(f, sx, sy, h, name, fconf)`: phi is cleared;
      for a circle or a plane every cell takes the descriptor's signed
      value at its scaled centre, the plane jitter of cell k drawn from
      unit(k); any other shape reaches `throw;` with nothing active, which
      terminates the program on the first cell, and the result is false
      with phi left cleared. */
  method ConstructLevelset(f: Fluid, sx: int, sy: int, h: real, name: string, c: LC.FluidConfig,
                           unit: int -> real, math: MathLib) returns (ok: bool)
    requires f.Valid() && 0 < sx && 0 < sy
    modifies f.phi.data
    ensures ok <==> Handled(c.name)
    ensures ok ==> forall k :: 0 <= k < f.phi.Size() ==>
      f.phi.data[k] == SignedValue(c, LC.ScaledPosition(f.phi.IJFromIndex(k), sx, sy), unit(k), math)
    ensures !ok ==> forall k :: 0 <= k < f.phi.data.Length ==> f.phi.data[k] == 0.0
  {
    var phi := f.phi;
    phi.Clear();
    var k := 0;
    while k < phi.data.Length
      invariant 0 <= k <= phi.data.Length
      invariant 0 < k ==> Handled(c.name)
      invariant forall m :: 0 <= m < phi.data.Length ==>
        phi.data[m] == if m < k then SignedValue(c, LC.ScaledPosition(phi.IJFromIndex(m), sx, sy), unit(m), math) else 0.0
    {
      var pos := LC.ScaledPosition(phi.IJFromIndex(k), sx, sy);
      var value := 0.0;
      if c.name == "circle" {
        value := LC.ComputePhiSphere(pos, c, math);
      } else if c.name == "plane" {
        value := ComputePhiPlane(pos, c, unit(k));
      } else {
        return false;
      }
      phi.data[k] := if c.negate then -value else value;
      k := k + 1;
    }
    ok := Handled(c.name);
  }

  /** Each fluid owns its phi grid. */
  ghost predicate OwnGrids(fluids: seq<Fluid>)
  {
    (forall n :: 0 <= n < |fluids| ==> fluids[n].Valid()) &&
    forall a, b :: 0 <= a < b < |fluids| ==> fluids[a].phi.data != fluids[b].phi.data
  }

  /** `fix_levelset_walls(fluids, lower, upper)` over these fluids: every
      fluid's phi is wall-fixed as in the later version. */
  method FixLevelsetWalls(fluids: seq<Fluid>, lower: Vec2, upper: Vec2, math: MathLib)
    requires OwnGrids(fluids)
    modifies set n | 0 <= n < |fluids| :: fluids[n].phi.data
    ensures forall n, k :: 0 <= n < |fluids| && 0 <= k < fluids[n].phi.Size() ==>
      fluids[n].phi.data[k] ==
        LC.WallFixed(LC.DistanceToBounds(fluids[n].phi.WpFromIndex(k), lower, upper, math), old(fluids[n].phi.data[k]))
  {
    var n := 0;
    while n < |fluids|
      invariant 0 <= n <= |fluids|
      invariant forall m, k :: 0 <= m < n && 0 <= k < fluids[m].phi.Size() ==>
        fluids[m].phi.data[k] ==
          LC.WallFixed(LC.DistanceToBounds(fluids[m].phi.WpFromIndex(k), lower, upper, math), old(fluids[m].phi.data[k]))
      invariant forall m :: n <= m < |fluids| ==> fluids[m].phi.data[..] == old(fluids[m].phi.data[..])
    {
      LC.FixWalls(fluids[n].phi, lower, upper, math);
      n := n + 1;
    }
  }
}
