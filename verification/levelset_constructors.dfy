/** The starting level sets of the fluids and the wall fix-up: each fluid's
    phi begins at (sx + sy) h and takes, cell by cell, the minimum of the
    signed values of its shape descriptors (circles, planes, or "none"),
    sampled at the cell centre scaled into the unit square; afterwards
    every fluid's phi is raised to at least minus the distance to the
    bounding box. */
module LevelsetConstructors {
  import opened Geometry
  import opened Grids
  import opened Fluids

  /** `FluidConfig`: a shape name, three shape parameters and whether the
      sign is flipped. */
  datatype FluidConfig = FluidConfig(name: string, p1: real, p2: real, p3: real, negate: bool)

  /** The shapes the descriptor accepts. */
  predicate KnownShape(name: string)
  {
    name == "circle" || name == "plane" || name == "none"
  }

  /** `FluidConfig(json)` once the fields are read: the descriptor, or None
      where the assert on the shape name aborts. */
  function NewFluidConfig(name: string, p1: real, p2: real, p3: real, negate: bool): (r: Option<FluidConfig>)
    ensures r.Some? <==> name == "circle" || name == "plane" || name == "none"
    ensures r.Some? ==> r.value.name == name && r.value.negate == negate
    ensures r.Some? ==> r.value.p1 == p1 && r.value.p2 == p2 && r.value.p3 == p3
  {
    if KnownShape(name) then Some(FluidConfig(name, p1, p2, p3, negate)) else None
  }

  function Sq(x: real): real
  {
    x * x
  }

  /** The squared distance between two points. */
  function SquaredDistance(a: Vec2, b: Vec2): real
  {
    Sq(a.x - b.x) + Sq(a.y - b.y)
  }

  /** `compute_phi_sphere`: the distance to the centre (p1, p2) less the
      radius p3. */
  function ComputePhiSphere(p: Vec2, c: FluidConfig, math: MathLib): (r: real)
    ensures SqrtSound(math) ==> -c.p3 <= r
    ensures SqrtSound(math) && p == Vec2(c.p1, c.p2) ==> r == -c.p3
  {
    Distance(p, Vec2(c.p1, c.p2), math) - c.p3
  }

  /** With a sound square root and a non-negative radius, the sphere's phi
      is negative exactly strictly inside the circle. */
  lemma {:induction false} SphereInside(p: Vec2, c: FluidConfig, math: MathLib)
    requires SqrtSound(math) && 0.0 <= c.p3
    ensures ComputePhiSphere(p, c, math) < 0.0 <==> SquaredDistance(p, Vec2(c.p1, c.p2)) < c.p3 * c.p3
  {
    var d := SquaredDistance(p, Vec2(c.p1, c.p2));
    assert 0.0 <= d by {
      SquareNonNegative(p.x - c.p1);
      SquareNonNegative(p.y - c.p2);
    }
    SqrtBelow(math, d, c.p3);
  }

  lemma SquareNonNegative(a: real)
    ensures 0.0 <= a * a
  {
    if a < 0.0 {
      MulPositive(-a, -a);
    }
  }

  /** The jitter `linearRand(-p3, p3)` of the plane for the unit draw u. */
  function Jitter(c: FluidConfig, u: real): real
  {
    LinearRand(-c.p3, c.p3, u)
  }

  /** `compute_phi_plane`: the distance above or below the jittered
      midline of p1 and p2, less half of p1 - p2. */
  function ComputePhiPlane(p: Vec2, c: FluidConfig, u: real): (r: real)
    ensures (c.p2 - c.p1) * 0.5 <= r
    ensures p.y == (c.p1 + c.p2) * 0.5 + Jitter(c, u) ==> r == (c.p2 - c.p1) * 0.5
  {
    var midpoint := (c.p1 + c.p2) * 0.5;
    var radius := (c.p1 - c.p2) * 0.5;
    Abs(p.y - (midpoint + Jitter(c, u))) - radius
  }

  /** The plane's phi is negative exactly in the band p2 < y - jitter < p1;
      with p1 <= p2 the band is empty and the plane contributes no inside
      at all.  The jitter stays within p3 of zero. */
  lemma {:induction false} PlaneBand(p: Vec2, c: FluidConfig, u: real)
    ensures ComputePhiPlane(p, c, u) < 0.0 <==> c.p2 + Jitter(c, u) < p.y < c.p1 + Jitter(c, u)
    ensures c.p1 <= c.p2 ==> 0.0 <= ComputePhiPlane(p, c, u)
    ensures 0.0 <= u <= 1.0 ==> Abs(Jitter(c, u)) <= Abs(c.p3)
  {
    var j := Jitter(c, u);
    var midpoint := (c.p1 + c.p2) * 0.5;
    var radius := (c.p1 - c.p2) * 0.5;
    assert midpoint - radius == c.p2 && midpoint + radius == c.p1;
  }

  /** The value `phi_value` holds after descriptor c at sample point pos,
      where it held prev: the shape's value, negated when c.negate.  A
      "none" descriptor is negated twice and so always gives the start
      value s; a shape the descriptor check would have refused keeps prev
      and flips it again. */
  function Signed(c: FluidConfig, pos: Vec2, prev: real, s: real, u: real, math: MathLib): (r: real)
    ensures c.name == "none" ==> r == s
    ensures c.name == "circle" ==> Abs(r) == Abs(ComputePhiSphere(pos, c, math))
    ensures c.name == "plane" ==> Abs(r) == Abs(ComputePhiPlane(pos, c, u))
    ensures !c.negate && c.name == "circle" ==> r == ComputePhiSphere(pos, c, math)
    ensures !c.negate && c.name == "plane" ==> r == ComputePhiPlane(pos, c, u)
  {
    var raw :=
      if c.name == "circle" then ComputePhiSphere(pos, c, math)
      else if c.name == "plane" then ComputePhiPlane(pos, c, u)
      else if c.name == "none" then (if c.negate then -s else s)
      else prev;
    if c.negate then -raw else raw
  }

  /** Negating a circle or a plane flips the sign of its contribution. */
  lemma {:induction false} NegateFlips(c: FluidConfig, pos: Vec2, prev: real, s: real, u: real, math: MathLib)
    requires c.name == "circle" || c.name == "plane"
    ensures Signed(c.(negate := true), pos, prev, s, u, math) == -Signed(c.(negate := false), pos, prev, s, u, math)
  {
  }

  /** `phi_value` and the cell of phi during the descriptor loop. */
  datatype CellState = CellState(value: real, cell: real)

  /** The state after the first n descriptors at the cell with flat index
      k, sample point pos, starting cell value start and "none" value s;
      the plane's draw for descriptor m is unit(k, m). */
  function Combined(configs: seq<FluidConfig>, n: int, k: int, pos: Vec2, start: real, s: real,
                    unit: (int, int) -> real, math: MathLib): (r: CellState)
    requires 0 <= n <= |configs|
    ensures r.cell <= start
  {
    if n == 0 then CellState(0.0, start)
    else
      var before := Combined(configs, n - 1, k, pos, start, s, unit, math);
      var v := Signed(configs[n - 1], pos, before.value, s, unit(k, n - 1), math);
      CellState(v, Min(v, before.cell))
  }

  /** The cell ends at the minimum of the start value and of every
      descriptor's signed value: at most each of them, and equal to one. */
  lemma {:induction false} CombinedIsMinimum(configs: seq<FluidConfig>, n: int, k: int, pos: Vec2, start: real,
                                             s: real, unit: (int, int) -> real, math: MathLib)
    requires 0 <= n <= |configs|
    ensures var r := Combined(configs, n, k, pos, start, s, unit, math);
      r.cell <= start &&
      (forall m :: 1 <= m <= n ==> r.cell <= Combined(configs, m, k, pos, start, s, unit, math).value) &&
      (r.cell == start || exists m :: 1 <= m <= n && r.cell == Combined(configs, m, k, pos, start, s, unit, math).value)
    decreases n
  {
    if n > 0 {
      CombinedIsMinimum(configs, n - 1, k, pos, start, s, unit, math);
    }
  }

  /** A "none" descriptor leaves the cell as it was when the "none" value
      is the start value, as it is when phi's dimensions are sx, sy. */
  lemma {:induction false} NoneKeepsCell(configs: seq<FluidConfig>, n: int, k: int, pos: Vec2, start: real,
                                         unit: (int, int) -> real, math: MathLib)
    requires 0 <= n < |configs| && configs[n].name == "none"
    ensures Combined(configs, n + 1, k, pos, start, start, unit, math).cell ==
            Combined(configs, n, k, pos, start, start, unit, math).cell
  {
    CombinedIsMinimum(configs, n, k, pos, start, start, unit, math);
  }

  /** The point `construct_levelset` samples for cell (i, j). */
  function ScaledPosition(ij: Index2, sx: int, sy: int): Vec2
    requires 0 < sx && 0 < sy
  {
    Vec2((ij.i as real + 0.5) / (sx as real), (ij.j as real + 0.5) / (sy as real))
  }

  /** The sample point of every cell lies strictly inside the unit square. */
  lemma {:induction false} ScaledPositionInside(ij: Index2, sx: int, sy: int)
    requires 0 <= ij.i < sx && 0 <= ij.j < sy
    ensures var p := ScaledPosition(ij, sx, sy); 0.0 < p.x < 1.0 && 0.0 < p.y < 1.0
  {
    UnitFraction(ij.i, sx);
    UnitFraction(ij.j, sy);
  }

  /** (i + 1/2) / n lies in (0, 1) for 0 <= i < n. */
  lemma UnitFraction(i: int, n: int)
    requires 0 <= i < n
    ensures 0.0 < (i as real + 0.5) / (n as real) < 1.0
  {
    var q := (i as real + 0.5) / (n as real);
    assert q * (n as real) == i as real + 0.5;
    if q <= 0.0 {
      MulMonotone(q, 0.0, n as real);
    }
    if 1.0 <= q {
      MulMonotone(1.0, q, n as real);
    }
  }

  /** The cell value `construct_levelset` leaves at flat index k of phi. */
  function LevelsetAt(phi: Array2<real>, k: int, sx: int, sy: int, h: real, configs: seq<FluidConfig>,
                      unit: (int, int) -> real, math: MathLib): (r: real)
    requires phi.Valid() && 0 <= k < phi.Size() && 0 < sx && 0 < sy
    ensures r <= (sx + sy) as real * h
  {
    var start := (sx + sy) as real * h;
    var s := (phi.sx + phi.sy) as real * h;
    Combined(configs, |configs|, k, ScaledPosition(phi.IJFromIndex(k), sx, sy), start, s, unit, math).cell
  }

  /** `construct_levelset(f, sx, sy, h, name, fluid_phis)`: every cell of
      phi is set to (sx + sy) h, then lowered to each descriptor's signed
      value in turn; the plane jitter of descriptor m at cell k is drawn
      from unit(k, m).  The name is not used. */
  method ConstructLevelset(f: Fluid, sx: int, sy: int, h: real, name: string, configs: seq<FluidConfig>,
                           unit: (int, int) -> real, math: MathLib)
    requires f.Valid() && 0 < sx && 0 < sy
    modifies f.phi.data
    ensures forall k :: 0 <= k < f.phi.Size() ==> f.phi.data[k] == LevelsetAt(f.phi, k, sx, sy, h, configs, unit, math)
  {
    var start := (sx + sy) as real * h;
    f.phi.Set(start);
    FillCells(f.phi, sx, sy, h, configs, unit, math);
  }

  /** The cell loop of `construct_levelset` over phi, every cell of which
      holds (sx + sy) h. */
  method FillCells(phi: Array2<real>, sx: int, sy: int, h: real, configs: seq<FluidConfig>,
                   unit: (int, int) -> real, math: MathLib)
    requires phi.Valid() && 0 < sx && 0 < sy
    requires forall c :: 0 <= c < phi.data.Length ==> phi.data[c] == (sx + sy) as real * h
    modifies phi.data
    ensures forall k :: 0 <= k < phi.Size() ==> phi.data[k] == LevelsetAt(phi, k, sx, sy, h, configs, unit, math)
  {
    var start := (sx + sy) as real * h;
    var s := (phi.sx + phi.sy) as real * h;
    var k := 0;
    while k < phi.data.Length
      invariant 0 <= k <= phi.data.Length
      invariant forall c :: 0 <= c < phi.data.Length ==>
        phi.data[c] == if c < k then LevelsetAt(phi, c, sx, sy, h, configs, unit, math) else start
    {
      CombineCell(phi, k, ScaledPosition(phi.IJFromIndex(k), sx, sy), start, s, configs, unit, math);
      k := k + 1;
    }
  }

  /** The descriptor loop of `construct_levelset` at the cell with flat
      index k, which holds start: the cell ends at its combined value and
      no other cell changes. */
  method CombineCell(phi: Array2<real>, k: int, pos: Vec2, start: real, s: real, configs: seq<FluidConfig>,
                     unit: (int, int) -> real, math: MathLib)
    requires 0 <= k < phi.data.Length && phi.data[k] == start
    modifies phi.data
    ensures phi.data[k] == Combined(configs, |configs|, k, pos, start, s, unit, math).cell
    ensures forall c :: 0 <= c < phi.data.Length && c != k ==> phi.data[c] == old(phi.data[c])
  {
    var value := 0.0;
    var m := 0;
    while m < |configs|
      invariant 0 <= m <= |configs|
      invariant CellState(value, phi.data[k]) == Combined(configs, m, k, pos, start, s, unit, math)
      invariant forall c :: 0 <= c < phi.data.Length && c != k ==> phi.data[c] == old(phi.data[c])
    {
      value := Signed(configs[m], pos, value, s, unit(k, m), math);
      phi.data[k] := Min(value, phi.data[k]);
      m := m + 1;
    }
  }

  /** `distance_to_bounds`: per axis the distance to the nearer of the
      two walls, then the length of that pair. */
  function DistanceToBounds(p: Vec2, lower: Vec2, upper: Vec2, math: MathLib): (r: real)
    ensures SqrtSound(math) ==> 0.0 <= r
  {
    var dx := Min(Abs(lower.x - p.x), Abs(p.x - upper.x));
    var dy := Min(Abs(lower.y - p.y), Abs(p.y - upper.y));
    SquareNonNegative(dx);
    SquareNonNegative(dy);
    math.sqrt(Sq(dx) + Sq(dy))
  }

  /** The corner of the box nearest to p: per axis the nearer wall, the
      upper one on a tie. */
  function NearestCorner(p: Vec2, lower: Vec2, upper: Vec2): Vec2
  {
    Vec2(if Abs(lower.x - p.x) < Abs(p.x - upper.x) then lower.x else upper.x,
         if Abs(lower.y - p.y) < Abs(p.y - upper.y) then lower.y else upper.y)
  }

  /** `distance_to_bounds` is the distance to the nearest corner of the
      box, not to the nearest wall: it is the distance to NearestCorner,
      which is no farther than any of the four corners. */
  lemma {:induction false} DistanceToNearestCorner(p: Vec2, lower: Vec2, upper: Vec2, math: MathLib)
    ensures DistanceToBounds(p, lower, upper, math) == Distance(p, NearestCorner(p, lower, upper), math)
    ensures forall q :: q in Corners(lower, upper) ==>
      SquaredDistance(p, NearestCorner(p, lower, upper)) <= SquaredDistance(p, q)
  {
    var c := NearestCorner(p, lower, upper);
    NearerWall(p.x, lower.x, upper.x);
    NearerWall(p.y, lower.y, upper.y);
    assert Distance(p, c, math) == math.sqrt(SquaredDistance(p, c));
  }

  /** The four corners of the box. */
  function Corners(lower: Vec2, upper: Vec2): seq<Vec2>
  {
    [lower, Vec2(upper.x, lower.y), Vec2(lower.x, upper.y), upper]
  }

  /** Along one axis, the nearer of the walls lo and hi is at the distance
      `distance_to_bounds` takes, and no farther than either wall. */
  lemma NearerWall(x: real, lo: real, hi: real)
    ensures var c := if Abs(lo - x) < Abs(x - hi) then lo else hi;
      var d := Min(Abs(lo - x), Abs(x - hi));
      Sq(x - c) == Sq(d) && Sq(d) <= Sq(x - lo) && Sq(d) <= Sq(x - hi)
  {
    var d := Min(Abs(lo - x), Abs(x - hi));
    SquareOfAbs(x - lo, Abs(lo - x));
    SquareOfAbs(x - hi, Abs(x - hi));
    AbsSquaresOrdered(d, x - lo);
    AbsSquaresOrdered(d, x - hi);
  }

  /** A number whose absolute value is d squares to d squared. */
  lemma SquareOfAbs(a: real, d: real)
    requires Abs(a) == d
    ensures Sq(a) == Sq(d)
  {
    if a < 0.0 {
      assert d * d == (-a) * (-a);
    }
  }

  /** A number at most |a| from zero squares to at most a squared. */
  lemma AbsSquaresOrdered(d: real, a: real)
    requires 0.0 <= d <= Abs(a)
    ensures Sq(d) <= Sq(a)
  {
    var b := Abs(a);
    SquareOfAbs(a, b);
    SquaresOrdered(d, b);
  }

  /** The two points the boundary-phi test case checks, in the unit box:
      (0, 0.5) is 0.5 away, and (0.5, 0.5) is sqrt(0.5 * 0.5 + 0.5 * 0.5)
      away. */
  lemma {:induction false} DistanceToBoundsExamples(math: MathLib)
    requires SqrtSound(math)
    ensures DistanceToBounds(Vec2(0.0, 0.5), Vec2(0.0, 0.0), Vec2(1.0, 1.0), math) == 0.5
    ensures DistanceToBounds(Vec2(0.5, 0.5), Vec2(0.0, 0.0), Vec2(1.0, 1.0), math) == math.sqrt(0.5 * 0.5 + 0.5 * 0.5)
  {
    SqrtOfSquare(math, 0.5);
    assert 0.0 * 0.0 + 0.5 * 0.5 == 0.5 * 0.5;
  }

  /** The wall fix of one value v at distance d from the box: raised to
      -d if below it.  It never lowers v, never leaves it below -d, and a
      second application changes nothing. */
  function WallFixed(d: real, v: real): (r: real)
    ensures v <= r && -d <= r
    ensures r == v || r == -d
    ensures Max(-d, r) == r
  {
    Max(-d, v)
  }

  /** The cell loop of `fix_levelset_walls` for one grid: every value is
      wall-fixed at the distance of its world position to the box. */
  method FixWalls(phi: Array2<real>, lower: Vec2, upper: Vec2, math: MathLib)
    requires phi.Valid()
    modifies phi.data
    ensures forall k :: 0 <= k < phi.Size() ==>
      phi.data[k] == WallFixed(DistanceToBounds(phi.WpFromIndex(k), lower, upper, math), old(phi.data[k]))
  {
    var k := 0;
    while k < phi.data.Length
      invariant 0 <= k <= phi.data.Length
      invariant forall c :: 0 <= c < phi.data.Length ==>
        phi.data[c] == if c < k then WallFixed(DistanceToBounds(phi.WpFromIndex(c), lower, upper, math), old(phi.data[c]))
                       else old(phi.data[c])
    {
      var boxDistance := DistanceToBounds(phi.WpFromIndex(k), lower, upper, math);
      phi.data[k] := Max(-boxDistance, phi.data[k]);
      k := k + 1;
    }
  }

  /** Each fluid owns its phi grid. */
  ghost predicate OwnGrids(fluids: seq<Fluid>)
  {
    (forall n :: 0 <= n < |fluids| ==> fluids[n].Valid()) &&
    forall a, b :: 0 <= a < b < |fluids| ==> fluids[a].phi.data != fluids[b].phi.data
  }

  /** `fix_levelset_walls(fluids, lower, upper)`: every fluid's phi is
      wall-fixed; nothing else changes. */
  method FixLevelsetWalls(fluids: seq<Fluid>, lower: Vec2, upper: Vec2, math: MathLib)
    requires OwnGrids(fluids)
    modifies set n | 0 <= n < |fluids| :: fluids[n].phi.data
    ensures forall n, k :: 0 <= n < |fluids| && 0 <= k < fluids[n].phi.Size() ==>
      fluids[n].phi.data[k] ==
        WallFixed(DistanceToBounds(fluids[n].phi.WpFromIndex(k), lower, upper, math), old(fluids[n].phi.data[k]))
  {
    var n := 0;
    while n < |fluids|
      invariant 0 <= n <= |fluids|
      invariant forall m, k :: 0 <= m < n && 0 <= k < fluids[m].phi.Size() ==>
        fluids[m].phi.data[k] ==
          WallFixed(DistanceToBounds(fluids[m].phi.WpFromIndex(k), lower, upper, math), old(fluids[m].phi.data[k]))
      invariant forall m :: n <= m < |fluids| ==> fluids[m].phi.data[..] == old(fluids[m].phi.data[..])
    {
      FixWalls(fluids[n].phi, lower, upper, math);
      n := n + 1;
    }
  }
}
