/** The particle and fluid records of the particle level-set method: a
    particle carries a position, the level-set value it was seeded with, a
    radius and a validity flag; a fluid owns a density, a level set sampled
    at cell centres, a per-voxel particle count and its particles. */
module Fluids {
  import opened Geometry
  import opened Grids

  datatype Particle = Particle(position: Vec2, startingPhi: real, radius: real, valid: bool)

  /** `Particle(position, starting_phi, radius)`: the given values, valid. */
  function NewParticle(position: Vec2, startingPhi: real, radius: real): (p: Particle)
    ensures p.position == position && p.startingPhi == startingPhi && p.radius == radius
    ensures p.valid
  {
    Particle(position, startingPhi, radius, true)
  }

  class Fluid {
    const density: real
    const phi: Array2<real>
    const particleCount: Array2<int>
    var particles: seq<Particle>

    /** phi is centre-sampled (offset -0.5, -0.5) and the count grid is
        node-sampled (offset 0, 0); both have the same dimensions and cell
        size, so one flat index addresses both. */
    ghost predicate Valid()
    {
      phi.Valid() && particleCount.Valid() &&
      particleCount.sx == phi.sx && particleCount.sy == phi.sy && particleCount.h == phi.h &&
      phi.offsetX == -0.5 && phi.offsetY == -0.5 &&
      particleCount.offsetX == 0.0 && particleCount.offsetY == 0.0 &&
      particleCount.zero == 0 && phi.zero == 0.0
    }

    /** `Fluid(density, sx, sy, h)`: zero grids and no particles. */
    constructor (density: real, sx: int, sy: int, h: real)
      requires 1 <= sx && 1 <= sy && 0.0 < h
      ensures Valid() && this.density == density && particles == []
      ensures phi.sx == sx && phi.sy == sy && phi.h == h
      ensures fresh(phi) && fresh(phi.data) && fresh(particleCount) && fresh(particleCount.data)
      ensures forall k :: 0 <= k < phi.Size() ==> phi.data[k] == 0.0 && particleCount.data[k] == 0
    {
      this.density := density;
      phi := new Array2(sx, sy, -0.5, -0.5, h, 0.0);
      particleCount := new Array2(sx, sy, 0.0, 0.0, h, 0);
      particles := [];
    }
  }

  /** The number of negative values, `count_if(..., f < 0)`. */
  function CountNegative(s: seq<real>): (n: nat)
    ensures n <= |s|
    ensures n == 0 <==> forall k :: 0 <= k < |s| ==> 0.0 <= s[k]
    ensures n == |s| <==> forall k :: 0 <= k < |s| ==> s[k] < 0.0
  {
    if s == [] then 0
    else (if s[0] < 0.0 then 1 else 0) + CountNegative(s[1..])
  }

  /** The volume `print_information` reports: the percentage of cells with
      negative phi, truncated to an integer. */
  function Volume(f: Fluid): (percent: int)
    requires f.Valid()
    reads f.phi.data
    ensures 0 <= percent <= 100
    ensures percent == 0 <== forall k :: 0 <= k < f.phi.data.Length ==> 0.0 <= f.phi.data[k]
    ensures percent == 100 <==> forall k :: 0 <= k < f.phi.data.Length ==> f.phi.data[k] < 0.0
  {
    var n := CountNegative(f.phi.data[..]);
    var size := f.phi.Size();
    PercentBounds(n, size);
    Trunc(100.0 * (n as real) / (size as real))
  }

  /** floor(100 n / size) lies in [0, 100] and reaches 100 exactly when
      n == size. */
  lemma PercentBounds(n: nat, size: int)
    requires 1 <= size && n <= size
    ensures 0 <= Trunc(100.0 * (n as real) / (size as real)) <= 100
    ensures Trunc(100.0 * (n as real) / (size as real)) == 100 <==> n == size
    ensures n == 0 ==> Trunc(100.0 * (n as real) / (size as real)) == 0
  {
    var m, s := n as real, size as real;
    var q := 100.0 * m / s;
    QuotientBounds(100.0 * m, 100.0, s, q);
    if n == size {
      MulDivCancel(100.0, s);
    }
  }

  /** For q = a / s with s > 0: 0 <= a gives 0 <= q, and a < b s gives
      q < b. */
  lemma QuotientBounds(a: real, b: real, s: real, q: real)
    requires 0.0 < s && q == a / s
    ensures 0.0 <= a ==> 0.0 <= q
    ensures a < b * s ==> q < b
  {
    assert q * s == a;
    if 0.0 <= a && q < 0.0 {
      MulMonotone(q, 0.0, s);
    }
    if a < b * s && b <= q {
      MulMonotone(b, q, s);
    }
  }
}
