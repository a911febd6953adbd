/** `reseed_particles`, the particle upkeep of the particle level-set
    method, in its three passes: particles that drifted more than three
    cells from the interface are removed, the survivors are counted per
    voxel, and voxels near the interface are topped up to sixteen particles
    with freshly seeded ones. */
module ParticleReseed {
  import opened Geometry
  import opened Grids
  import opened Calculus
  import opened Fluids

  // ---------------------------------------------------------------------
  // Pruning

  /** The marking test: the level set sampled at the position is less than
      three cells of size h away from zero. */
  predicate NearInterface(phiAt: Vec2 -> real, h: real, position: Vec2)
  {
    Abs(phiAt(position)) < 3.0 * h
  }

  /** A particle whose flag is its marking test. */
  function Mark(phiAt: Vec2 -> real, h: real, p: Particle): (q: Particle)
    ensures q.valid <==> Abs(phiAt(p.position)) < 3.0 * h
    ensures q.(valid := p.valid) == p
  {
    p.(valid := NearInterface(phiAt, h, p.position))
  }

  /** The marking loop: every particle's flag becomes its marking test. */
  function Marked(phiAt: Vec2 -> real, h: real, ps: seq<Particle>): seq<Particle>
  {
    seq(|ps|, n requires 0 <= n < |ps| => Mark(phiAt, h, ps[n]))
  }

  /** `erase(remove_if(..., !valid))`: the valid particles, in order. */
  function Kept(ps: seq<Particle>): (r: seq<Particle>)
    ensures |r| <= |ps|
    ensures forall m :: 0 <= m < |r| ==> r[m] in ps && r[m].valid
    ensures forall n :: 0 <= n < |ps| && ps[n].valid ==> ps[n] in r
  {
    if ps == [] then []
    else Kept(ps[..|ps| - 1]) + (if ps[|ps| - 1].valid then [ps[|ps| - 1]] else [])
  }

  /** The particles the pruning pass leaves. */
  function Pruned(phiAt: Vec2 -> real, h: real, ps: seq<Particle>): (r: seq<Particle>)
    ensures |r| <= |ps|
    ensures forall m :: 0 <= m < |r| ==> r[m].valid && NearInterface(phiAt, h, r[m].position)
    ensures forall n :: 0 <= n < |ps| && NearInterface(phiAt, h, ps[n].position) ==>
              ps[n].(valid := true) in r
  {
    var marked := Marked(phiAt, h, ps);
    assert forall n :: 0 <= n < |ps| ==> marked[n] == Mark(phiAt, h, ps[n]);
    Kept(marked)
  }

  /** The first two loops of `reseed_particles`: mark every particle by its
      distance to the interface, then erase the unmarked ones. */
  method PruneParticles(f: Fluid)
    requires f.Valid()
    modifies f
    ensures f.particles == Pruned(Sampling(f.phi, f.phi.data[..]), f.phi.h, old(f.particles))
  {
    MarkParticles(f, Sampling(f.phi, f.phi.data[..]));
    EraseInvalid(f);
  }

  /** The marking loop: each particle's flag is set to whether phiAt, the
      fluid's level set, is within three cells of zero at its position. */
  method MarkParticles(f: Fluid, phiAt: Vec2 -> real)
    modifies f
    ensures f.particles == Marked(phiAt, f.phi.h, old(f.particles))
  {
    ghost var ps := f.particles;
    var n := 0;
    while n < |f.particles|
      invariant 0 <= n <= |f.particles| == |ps|
      invariant forall m :: 0 <= m < n ==> f.particles[m] == Mark(phiAt, f.phi.h, ps[m])
      invariant forall m :: n <= m < |ps| ==> f.particles[m] == ps[m]
    {
      var p := f.particles[n];
      var localPhi := phiAt(p.position);
      f.particles := f.particles[n := p.(valid := Abs(localPhi) < 3.0 * f.phi.h)];
      n := n + 1;
    }
  }

  /** `erase(remove_if(..., !valid))` over the particle vector. */
  method EraseInvalid(f: Fluid)
    modifies f
    ensures f.particles == Kept(old(f.particles))
  {
    var kept := [];
    var n := 0;
    while n < |f.particles|
      invariant 0 <= n <= |f.particles|
      invariant kept == Kept(f.particles[..n])
    {
      assert f.particles[..n + 1][..n] == f.particles[..n];
      if f.particles[n].valid {
        kept := kept + [f.particles[n]];
      }
      n := n + 1;
    }
    assert f.particles[..n] == f.particles;
    f.particles := kept;
  }

  /** Removal keeps the order: it distributes over concatenation. */
  lemma {:induction false} KeptConcat(a: seq<Particle>, b: seq<Particle>)
    ensures Kept(a + b) == Kept(a) + Kept(b)
    decreases |b|
  {
    if b == [] {
      assert a + b == a;
    } else {
      var b' := b[..|b| - 1];
      assert (a + b)[..|a + b| - 1] == a + b';
      KeptConcat(a, b');
    }
  }

  /** A sequence of valid particles loses nothing. */
  lemma {:induction false} KeptAllValid(ps: seq<Particle>)
    requires forall n :: 0 <= n < |ps| ==> ps[n].valid
    ensures Kept(ps) == ps
    decreases |ps|
  {
    if ps != [] {
      var init := ps[..|ps| - 1];
      KeptAllValid(init);
      assert Kept(ps) == init + [ps[|ps| - 1]];
      assert init + [ps[|ps| - 1]] == ps;
    }
  }

  /** Every survivor is an input particle near the interface, now flagged
      valid. */
  lemma {:induction false} SurvivorsNearInterface(phiAt: Vec2 -> real, h: real, ps: seq<Particle>)
    ensures forall q :: q in Pruned(phiAt, h, ps) ==>
      q.valid && NearInterface(phiAt, h, q.position) &&
      exists n :: 0 <= n < |ps| && q == ps[n].(valid := true)
  {
    var marked := Marked(phiAt, h, ps);
    forall q | q in Pruned(phiAt, h, ps)
      ensures q.valid && NearInterface(phiAt, h, q.position)
      ensures exists n :: 0 <= n < |ps| && q == ps[n].(valid := true)
    {
      var n :| 0 <= n < |marked| && marked[n] == q;
      assert q == Mark(phiAt, h, ps[n]);
    }
  }

  /** Every input particle near the interface survives. */
  lemma {:induction false} NearParticlesSurvive(phiAt: Vec2 -> real, h: real, ps: seq<Particle>)
    ensures forall n :: 0 <= n < |ps| && NearInterface(phiAt, h, ps[n].position) ==>
      ps[n].(valid := true) in Pruned(phiAt, h, ps)
  {
    var marked := Marked(phiAt, h, ps);
    forall n | 0 <= n < |ps| && NearInterface(phiAt, h, ps[n].position)
      ensures ps[n].(valid := true) in Pruned(phiAt, h, ps)
    {
      assert marked[n] == ps[n].(valid := true);
    }
  }

  /** Pruning a second time removes nothing. */
  lemma {:induction false} PrunedIdempotent(phiAt: Vec2 -> real, h: real, ps: seq<Particle>)
    ensures Pruned(phiAt, h, Pruned(phiAt, h, ps)) == Pruned(phiAt, h, ps)
  {
    var once := Pruned(phiAt, h, ps);
    SurvivorsNearInterface(phiAt, h, ps);
    var again := Marked(phiAt, h, once);
    assert again == once by {
      forall n | 0 <= n < |once|
        ensures again[n] == once[n]
      {
        assert once[n] in once;
      }
    }
    KeptAllValid(once);
  }

  // ---------------------------------------------------------------------
  // Counting

  /** The voxel a particle is counted in: its clamped grid coordinates on
      the count grid, truncated toward zero. */
  function Voxel(g: Array2<int>, position: Vec2): (k: int)
    requires g.Valid()
    ensures 0 <= k < g.Size()
  {
    var c := g.CoordinatesAt(position);
    FlatIndexBounds(g.sx, g.sy, Trunc(c.x), Trunc(c.y));
    g.IndexFromIJ(Index2(Trunc(c.x), Trunc(c.y)))
  }

  /** The number of particles counted in voxel k. */
  function Occupancy(g: Array2<int>, ps: seq<Particle>, k: int): (n: nat)
    requires g.Valid()
    ensures n <= |ps|
  {
    if ps == [] then 0
    else Occupancy(g, ps[..|ps| - 1], k) + (if Voxel(g, ps[|ps| - 1].position) == k then 1 else 0)
  }

  /** The third loop of `reseed_particles`: clear the count grid, then add
      one in the voxel of every particle. */
  method RecountParticles(f: Fluid)
    requires f.Valid()
    modifies f.particleCount.data
    ensures forall k :: 0 <= k < f.particleCount.Size() ==>
      f.particleCount.data[k] == Occupancy(f.particleCount, f.particles, k)
  {
    var g := f.particleCount;
    g.Clear();
    var n := 0;
    while n < |f.particles|
      invariant 0 <= n <= |f.particles|
      invariant forall k :: 0 <= k < g.Size() ==> g.data[k] == Occupancy(g, f.particles[..n], k)
      modifies g.data
    {
      assert f.particles[..n + 1][..n] == f.particles[..n];
      var gridCoordinates := g.CoordinatesAt(f.particles[n].position);
      var ij := Index2(Trunc(gridCoordinates.x), Trunc(gridCoordinates.y));
      g.Write(ij, g.At(ij) + 1);
      n := n + 1;
    }
    assert f.particles[..n] == f.particles;
  }

  /** The sum of the counts of voxels 0 .. m - 1. */
  function CountedBelow(g: Array2<int>, ps: seq<Particle>, m: int): int
    requires g.Valid()
    decreases if m < 0 then 0 else m
  {
    if m <= 0 then 0 else CountedBelow(g, ps, m - 1) + Occupancy(g, ps, m - 1)
  }

  /** Every particle is counted exactly once: the counts add up to the
      number of particles. */
  lemma {:induction false} OccupancyTotal(g: Array2<int>, ps: seq<Particle>)
    requires g.Valid()
    ensures CountedBelow(g, ps, g.Size()) == |ps|
    decreases |ps|
  {
    if ps == [] {
      NoneCounted(g, g.Size());
    } else {
      var ps' := ps[..|ps| - 1];
      OccupancyTotal(g, ps');
      OneMoreCounted(g, ps', ps[|ps| - 1], g.Size());
      assert ps' + [ps[|ps| - 1]] == ps;
    }
  }

  lemma {:induction false} NoneCounted(g: Array2<int>, m: int)
    requires g.Valid()
    ensures CountedBelow(g, [], m) == 0
    decreases if m < 0 then 0 else m
  {
    if m > 0 {
      NoneCounted(g, m - 1);
    }
  }

  /** One more particle adds one to the voxels below m exactly when its
      voxel is one of them. */
  lemma {:induction false} OneMoreCounted(g: Array2<int>, ps: seq<Particle>, p: Particle, m: int)
    requires g.Valid() && 0 <= m
    ensures CountedBelow(g, ps + [p], m) ==
      CountedBelow(g, ps, m) + (if Voxel(g, p.position) < m then 1 else 0)
  {
    if m > 0 {
      OneMoreCounted(g, ps, p, m - 1);
      assert (ps + [p])[..|ps + [p]| - 1] == ps;
    }
  }

  // ---------------------------------------------------------------------
  // Seeding

  /** The seeding test of `reseed_particles`: the cell is within three
      cells of the interface, two cells away from every wall, and outside
      the solid. */
  predicate Eligible(phi: Array2<real>, vals: seq<real>, solidVals: seq<real>, k: int)
    requires Holds(phi, vals) && 0 <= k < phi.Size() <= |solidVals|
    ensures Eligible(phi, vals, solidVals, k) <==>
              InSeedBand(phi, k) && 0.0 < solidVals[k] && Abs(vals[k]) <= 3.0 * phi.h
  {
    var ij := phi.IJFromIndex(k);
    !(Abs(vals[k]) > 3.0 * phi.h || ij.i < 2 || ij.j < 2 ||
      ij.i > phi.sx - 3 || ij.j > phi.sy - 3 || solidVals[k] <= 0.0)
  }

  /** Cells whose jittered seeds stay clear of the walls. */
  predicate InSeedBand(phi: Array2<real>, k: int)
    requires phi.Valid() && 0 <= k < phi.Size()
  {
    var ij := phi.IJFromIndex(k);
    2 <= ij.i <= phi.sx - 3 && 2 <= ij.j <= phi.sy - 3
  }

  /** A draw of `glm::linearRand(vec2(0), vec2(1))`. */
  predicate UnitDraw(u: Vec2)
  {
    0.0 <= u.x <= 1.0 && 0.0 <= u.y <= 1.0
  }

  /** The particles still missing from cell k, which holds count
      particles: up to sixteen in an eligible cell, none elsewhere. */
  function Deficit(phi: Array2<real>, vals: seq<real>, solidVals: seq<real>, count: int, k: int): (n: nat)
    requires Holds(phi, vals) && 0 <= k < phi.Size() <= |solidVals|
    ensures n == 0 <==> !Eligible(phi, vals, solidVals, k) || 16 <= count
    ensures n != 0 ==> count + n == 16
  {
    if Eligible(phi, vals, solidVals, k) && count < 16 then 16 - count else 0
  }

  /** The deficit of every cell of phi, in flat order. */
  function Deficits(phi: Array2<real>, vals: seq<real>, solidVals: seq<real>, counts: seq<int>): (need: seq<nat>)
    requires Holds(phi, vals) && phi.Size() <= |solidVals| && |counts| == phi.Size()
  {
    seq(phi.Size(), k requires 0 <= k < phi.Size() => Deficit(phi, vals, solidVals, counts[k], k))
  }

  /** The number of seeds, and of random draws, for cells 0 .. k - 1. */
  function DrawsBefore(need: seq<nat>, k: int): nat
    requires 0 <= k <= |need|
  {
    if k == 0 then 0 else DrawsBefore(need, k - 1) + need[k - 1]
  }

  /** The world position of the count grid's node k moved by a random
      fraction of a cell along each axis. */
  function Jittered(f: Fluid, k: int, u: Vec2): (r: Vec2)
    requires f.Valid() && 0 <= k < f.phi.Size()
    ensures var wp := f.particleCount.WpFromIndex(k);
      UnitDraw(u) ==> wp.x <= r.x <= wp.x + f.phi.h && wp.y <= r.y <= wp.y + f.phi.h
  {
    var wp := f.particleCount.WpFromIndex(k);
    Plus(wp, Vec2(LinearRand(0.0, f.phi.h, u.x), LinearRand(0.0, f.phi.h, u.y)))
  }

  /** The clamp box of seeded positions on both axes. */
  function SeedLow(phi: Array2<real>): real
  {
    2.001 * phi.h
  }

  function SeedHigh(phi: Array2<real>): real
  {
    ((if phi.sx < phi.sy then phi.sy else phi.sx) as real - 2.001) * phi.h
  }

  /** What every seeded particle satisfies: it is valid, its radius lies in
      [0.1 h, 0.5 h], its position in the clamp box and its starting phi is
      the level set phiAt sampled there. */
  predicate WellSeeded(phiAt: Vec2 -> real, phi: Array2<real>, p: Particle)
  {
    p.valid && 0.1 * phi.h <= p.radius <= 0.5 * phi.h &&
    SeedLow(phi) <= p.position.x <= SeedHigh(phi) &&
    SeedLow(phi) <= p.position.y <= SeedHigh(phi) &&
    p.startingPhi == phiAt(p.position)
  }

  /** One pass of the seeding `while`: a jittered position in cell k is
      moved along the normal towards a level-set value between 0.1 h and h
      in magnitude, clamped into the box, and becomes a particle whose
      starting phi is sampled there and whose radius is that value's
      magnitude clamped into [0.1 h, 0.5 h]. */
  function SeedParticle(f: Fluid, vals: seq<real>, k: int, u: Vec2, math: MathLib): (p: Particle)
    requires f.Valid() && Holds(f.phi, vals) && 0 <= k < f.phi.Size() && InSeedBand(f.phi, k) && UnitDraw(u)
    ensures WellSeeded(Sampling(f.phi, vals), f.phi, p)
  {
    var h := f.phi.h;
    var position := Jittered(f, k, u);
    JitterStencilInside(f, k, u);
    var initialPhi := ValueAt(f.phi, vals, position);
    var goalPhi := if initialPhi > 0.0 then Clamp(initialPhi, 0.1 * h, 1.0 * h)
                   else Clamp(initialPhi, -1.0 * h, -0.1 * h);
    var normal := math.normalize(InterpolateGradient(f.phi, vals, position));
    var moved := Plus(position, Scale(goalPhi - initialPhi, normal));
    SeedBoxNonEmpty(f.phi, k);
    var newPosition := Clamp2(moved, SeedLow(f.phi), SeedHigh(f.phi));
    var newPhi := ValueAt(f.phi, vals, newPosition);
    NewParticle(newPosition, newPhi, Clamp(Abs(newPhi), 0.1 * h, 0.5 * h))
  }

  /** The seeding step for phi's values vals, as a value: the seed of cell k
      for the draw u wherever a seed can be drawn, and an invalid particle
      at the origin for arguments the loop never passes. */
  function Seeder(f: Fluid, vals: seq<real>, math: MathLib): (int, Vec2) -> Particle
    requires f.Valid() && Holds(f.phi, vals)
  {
    (k: int, u: Vec2) =>
      if 0 <= k < f.phi.Size() && InSeedBand(f.phi, k) && UnitDraw(u) then SeedParticle(f, vals, k, u, math)
      else Particle(Zero(), 0.0, 0.0, false)
  }

  /** The seeds of cell k: n particles from the draws d .. d + n - 1. */
  function Batch(seed: (int, Vec2) -> Particle, k: int, d: nat, n: nat, draws: nat -> Vec2): (r: seq<Particle>)
    ensures |r| == n
  {
    if n == 0 then [] else Batch(seed, k, d, n - 1, draws) + [seed(k, draws(d + n - 1))]
  }

  /** All seeds of cells 0 .. k - 1, in cell order. */
  function SeedsBefore(seed: (int, Vec2) -> Particle, need: seq<nat>, k: int, draws: nat -> Vec2): (r: seq<Particle>)
    requires 0 <= k <= |need|
    ensures |r| == DrawsBefore(need, k)
  {
    if k == 0 then []
    else SeedsBefore(seed, need, k - 1, draws) + Batch(seed, k - 1, DrawsBefore(need, k - 1), need[k - 1], draws)
  }

  /** The seeding loop of `reseed_particles`: every eligible cell is topped
      up to sixteen particles, each seed drawing the next random jitter; the
      seeds are appended after the existing particles, and only the counts of
      eligible cells change.  The result is the number of draws used. */
  method SeedParticles(f: Fluid, vals: seq<real>, solidVals: seq<real>, draws: nat -> Vec2,
                       seed: (int, Vec2) -> Particle) returns (used: nat)
    requires f.Valid() && Holds(f.phi, vals) && f.phi.Size() <= |solidVals|
    modifies f, f.particleCount.data
    ensures var need := Deficits(f.phi, vals, solidVals, old(f.particleCount.data[..]));
      used == DrawsBefore(need, f.phi.Size()) &&
      f.particles == old(f.particles) + SeedsBefore(seed, need, f.phi.Size(), draws) &&
      forall k :: 0 <= k < f.phi.Size() ==> f.particleCount.data[k] == old(f.particleCount.data[k]) + need[k]
  {
    ghost var counts := f.particleCount.data[..];
    ghost var need := Deficits(f.phi, vals, solidVals, counts);
    var size := f.phi.Size();
    var seeds := [];
    used := 0;
    var k := 0;
    while k < size
      invariant 0 <= k <= size
      invariant used == DrawsBefore(need, k) && seeds == SeedsBefore(seed, need, k, draws)
      invariant forall m :: 0 <= m < size ==> f.particleCount.data[m] == counts[m] + if m < k then need[m] else 0
      modifies f.particleCount.data
    {
      var batch;
      used, batch := TopUp(f, vals, solidVals, counts, need, k, used, draws, seed);
      SeedsStep(seed, need, k, draws);
      seeds := seeds + batch;
      k := k + 1;
    }
    f.particles := f.particles + seeds;
  }

  /** One more cell appends its batch of seeds. */
  lemma SeedsStep(seed: (int, Vec2) -> Particle, need: seq<nat>, k: int, draws: nat -> Vec2)
    requires 0 <= k < |need|
    ensures DrawsBefore(need, k + 1) == DrawsBefore(need, k) + need[k]
    ensures SeedsBefore(seed, need, k + 1, draws) ==
      SeedsBefore(seed, need, k, draws) + Batch(seed, k, DrawsBefore(need, k), need[k], draws)
  {
  }

  /** One pass of the seeding loop over cell k, which starts with its
      count from before the loop: an eligible cell gets its deficit of
      seeds, any other cell nothing, so the counts of cells 0 .. k now
      include their seeds. */
  method TopUp(f: Fluid, vals: seq<real>, solidVals: seq<real>, ghost counts: seq<int>, ghost need: seq<nat>,
               k: int, d: nat, draws: nat -> Vec2, seed: (int, Vec2) -> Particle) returns (next: nat, batch: seq<Particle>)
    requires f.Valid() && Holds(f.phi, vals) && 0 <= k < f.phi.Size() <= |solidVals| && |counts| == f.phi.Size()
    requires need == Deficits(f.phi, vals, solidVals, counts)
    requires forall m :: 0 <= m < f.phi.Size() ==>
      f.particleCount.data[m] == counts[m] + if m < k then need[m] else 0
    modifies f.particleCount.data
    ensures next == d + need[k] && batch == Batch(seed, k, d, need[k], draws)
    ensures forall m :: 0 <= m < f.phi.Size() ==>
      f.particleCount.data[m] == counts[m] + if m <= k then need[m] else 0
  {
    if Eligible(f.phi, vals, solidVals, k) {
      next, batch := SeedCell(f, k, d, draws, seed);
    } else {
      next, batch := d, [];
    }
  }

  /** The `while` of one eligible cell: seeds are made, each with the next
      draw, until the cell's count reaches sixteen; no other count
      changes. */
  method SeedCell(f: Fluid, k: int, d: nat, draws: nat -> Vec2, seed: (int, Vec2) -> Particle)
    returns (next: nat, batch: seq<Particle>)
    requires f.Valid() && 0 <= k < f.phi.Size()
    modifies f.particleCount.data
    ensures var n := if old(f.particleCount.data[k]) < 16 then 16 - old(f.particleCount.data[k]) else 0;
      next == d + n && batch == Batch(seed, k, d, n, draws) &&
      f.particleCount.data[k] == old(f.particleCount.data[k]) + n
    ensures forall m :: 0 <= m < f.phi.Size() && m != k ==> f.particleCount.data[m] == old(f.particleCount.data[m])
  {
    ghost var start := f.particleCount.data[k];
    var n: nat := 0;
    batch := [];
    while f.particleCount.data[k] < 16
      invariant f.particleCount.data[k] == start + n
      invariant forall m :: 0 <= m < f.phi.Size() && m != k ==> f.particleCount.data[m] == old(f.particleCount.data[m])
      invariant start < 16 ==> start + n <= 16
      invariant start >= 16 ==> n == 0
      invariant batch == Batch(seed, k, d, n, draws)
      decreases 16 - f.particleCount.data[k]
    {
      batch := batch + [seed(k, draws(d + n))];
      f.particleCount.data[k] := f.particleCount.data[k] + 1;
      n := n + 1;
    }
    next := d + n;
  }

  /** The counts of ps on g, voxel by voxel in flat order. */
  function Occupancies(g: Array2<int>, ps: seq<Particle>): seq<int>
    requires g.Valid()
  {
    seq(g.Size(), k requires 0 <= k < g.Size() => Occupancy(g, ps, k) as int)
  }

  /** `reseed_particles(fluid, solid_phi)`: the particles far from the
      interface are removed, the survivors are counted, and every eligible
      voxel holding fewer than sixteen of them receives seeds until it holds
      sixteen; the new particles follow the survivors, and the count grid
      ends with every voxel's survivors plus its seeds. */
  method ReseedParticles(f: Fluid, solid: Array2<real>, draws: nat -> Vec2, math: MathLib) returns (used: nat)
    requires f.Valid() && solid.Valid() && f.phi.Size() <= solid.Size()
    modifies f, f.particleCount.data
    ensures var vals := f.phi.data[..];
      var survivors := Pruned(Sampling(f.phi, vals), f.phi.h, old(f.particles));
      var need := Deficits(f.phi, vals, solid.data[..], Occupancies(f.particleCount, survivors));
      used == DrawsBefore(need, f.phi.Size()) &&
      f.particles == survivors + SeedsBefore(Seeder(f, vals, math), need, f.phi.Size(), draws) &&
      forall k :: 0 <= k < f.phi.Size() ==>
        f.particleCount.data[k] == Occupancy(f.particleCount, survivors, k) + need[k]
  {
    PruneParticles(f);
    RecountParticles(f);
    var vals := f.phi.data[..];
    assert f.particleCount.data[..] == Occupancies(f.particleCount, f.particles);
    used := SeedParticles(f, vals, solid.data[..], draws, Seeder(f, vals, math));
  }

  /** After reseeding, an eligible voxel holds at least sixteen particles
      and exactly sixteen if it held fewer; every other voxel holds its
      survivors. */
  lemma {:induction false} ToppedUp(phi: Array2<real>, vals: seq<real>, solidVals: seq<real>, counts: seq<int>, k: int)
    requires Holds(phi, vals) && phi.Size() <= |solidVals| && |counts| == phi.Size() && 0 <= k < phi.Size()
    ensures counts[k] + Deficits(phi, vals, solidVals, counts)[k] ==
      if Eligible(phi, vals, solidVals, k) then (if counts[k] < 16 then 16 else counts[k]) else counts[k]
  {
  }

  /** A seeding step whose particles, for every cell of phi's seeding band
      and every draw in the unit square, satisfy ok. */
  ghost predicate SeedsWell(seed: (int, Vec2) -> Particle, ok: Particle -> bool, phi: Array2<real>)
    requires phi.Valid()
  {
    forall k, u :: 0 <= k < phi.Size() && InSeedBand(phi, k) && UnitDraw(u) ==> ok(seed(k, u))
  }

  /** The seeding step of `reseed_particles` yields well-seeded particles
      throughout the band. */
  lemma {:induction false} SeederSeedsWell(f: Fluid, vals: seq<real>, math: MathLib)
    requires f.Valid() && Holds(f.phi, vals)
    ensures SeedsWell(Seeder(f, vals, math), p => WellSeeded(Sampling(f.phi, vals), f.phi, p), f.phi)
  {
    var seed := Seeder(f, vals, math);
    forall k, u | 0 <= k < f.phi.Size() && InSeedBand(f.phi, k) && UnitDraw(u)
      ensures WellSeeded(Sampling(f.phi, vals), f.phi, seed(k, u))
    {
      assert seed(k, u) == SeedParticle(f, vals, k, u, math);
    }
  }

  /** Whatever a seeding step guarantees in the band holds for every seed of
      every eligible cell, for draws in the unit square. */
  lemma {:induction false} SeedsWellSeeded(seed: (int, Vec2) -> Particle, ok: Particle -> bool,
                                           phi: Array2<real>, need: seq<nat>, k: int, draws: nat -> Vec2)
    requires phi.Valid() && |need| == phi.Size() && 0 <= k <= |need|
    requires forall c :: 0 <= c < |need| && need[c] > 0 ==> InSeedBand(phi, c)
    requires SeedsWell(seed, ok, phi) && forall e :: UnitDraw(draws(e))
    ensures forall m :: 0 <= m < DrawsBefore(need, k) ==> ok(SeedsBefore(seed, need, k, draws)[m])
    decreases k
  {
    if k > 0 {
      var prev := SeedsBefore(seed, need, k - 1, draws);
      var batch := Batch(seed, k - 1, DrawsBefore(need, k - 1), need[k - 1], draws);
      SeedsWellSeeded(seed, ok, phi, need, k - 1, draws);
      BatchWellSeeded(seed, ok, phi, k - 1, DrawsBefore(need, k - 1), need[k - 1], draws);
      var r := SeedsBefore(seed, need, k, draws);
      assert r == prev + batch;
      forall m | 0 <= m < |r|
        ensures ok(r[m])
      {
        if m < |prev| {
          assert r[m] == prev[m];
        } else {
          assert r[m] == batch[m - |prev|];
        }
      }
    }
  }

  /** The seeds of one cell of the band satisfy what the step guarantees. */
  lemma {:induction false} BatchWellSeeded(seed: (int, Vec2) -> Particle, ok: Particle -> bool,
                                           phi: Array2<real>, k: int, d: nat, n: nat, draws: nat -> Vec2)
    requires phi.Valid() && 0 <= k < phi.Size() && (n > 0 ==> InSeedBand(phi, k))
    requires SeedsWell(seed, ok, phi) && forall e :: UnitDraw(draws(e))
    ensures forall m :: 0 <= m < n ==> ok(Batch(seed, k, d, n, draws)[m])
    decreases n
  {
    if n > 0 {
      var prev := Batch(seed, k, d, n - 1, draws);
      BatchWellSeeded(seed, ok, phi, k, d, n - 1, draws);
      var u := draws(d + n - 1);
      assert UnitDraw(u);
      var r := Batch(seed, k, d, n, draws);
      assert r == prev + [seed(k, u)];
      forall m | 0 <= m < n
        ensures ok(r[m])
      {
        if m < n - 1 {
          assert r[m] == prev[m];
        }
      }
    }
  }

  /** Every particle the seeding loop of `reseed_particles` adds is well
      seeded, for draws in the unit square. */
  lemma {:induction false} ReseedsWellSeeded(f: Fluid, vals: seq<real>, math: MathLib,
                                             solidVals: seq<real>, counts: seq<int>, draws: nat -> Vec2)
    requires f.Valid() && Holds(f.phi, vals) && f.phi.Size() <= |solidVals| && |counts| == f.phi.Size()
    requires forall e :: UnitDraw(draws(e))
    ensures var need := Deficits(f.phi, vals, solidVals, counts);
      forall m :: 0 <= m < DrawsBefore(need, f.phi.Size()) ==>
        WellSeeded(Sampling(f.phi, vals), f.phi, SeedsBefore(Seeder(f, vals, math), need, f.phi.Size(), draws)[m])
  {
    var need := Deficits(f.phi, vals, solidVals, counts);
    forall c | 0 <= c < |need| && need[c] > 0
      ensures InSeedBand(f.phi, c)
    {
      EligibleInBand(f.phi, vals, solidVals, c);
    }
    var ok := p => WellSeeded(Sampling(f.phi, vals), f.phi, p);
    SeederSeedsWell(f, vals, math);
    SeedsWellSeeded(Seeder(f, vals, math), ok, f.phi, need, f.phi.Size(), draws);
  }

  /** Eligible cells are in the seeding band. */
  lemma EligibleInBand(phi: Array2<real>, vals: seq<real>, solidVals: seq<real>, k: int)
    requires Holds(phi, vals) && 0 <= k < phi.Size() <= |solidVals|
    ensures Eligible(phi, vals, solidVals, k) ==> InSeedBand(phi, k)
  {
  }

  /** Every jittered position of a cell in the seeding band lies where the
      four central gradients of `interpolate_gradient` are all inside the
      grid: its truncated coordinates are the cell or its left or lower
      neighbour. */
  lemma {:induction false} JitterStencilInside(f: Fluid, k: int, u: Vec2)
    requires f.Valid() && 0 <= k < f.phi.Size() && InSeedBand(f.phi, k) && UnitDraw(u)
    ensures CanInterpolateGradient(f.phi, Jittered(f, k, u))
  {
    var ij := f.phi.IJFromIndex(k);
    JitterCoordinates(f, k, u);
    TruncNear(ij.i, u.x, f.phi.sx);
    TruncNear(ij.j, u.y, f.phi.sy);
  }

  /** On the centre-sampled phi grid the jittered position of node ij of
      the count grid has coordinates ij + u - 0.5. */
  lemma {:induction false} JitterCoordinates(f: Fluid, k: int, u: Vec2)
    requires f.Valid() && 0 <= k < f.phi.Size() && InSeedBand(f.phi, k) && UnitDraw(u)
    ensures var ij := f.phi.IJFromIndex(k);
      f.phi.CoordinatesAt(Jittered(f, k, u)) == Vec2(ij.i as real + u.x - 0.5, ij.j as real + u.y - 0.5)
  {
    var ij := f.phi.IJFromIndex(k);
    var w := Jittered(f, k, u);
    JitterWorld(f, k, u);
    AxisCoordinate(ij.i, u.x, f.phi.h, f.phi.sx, w.x);
    AxisCoordinate(ij.j, u.y, f.phi.h, f.phi.sy, w.y);
  }

  /** The jittered position of node ij of the count grid is (ij + u) h. */
  lemma {:induction false} JitterWorld(f: Fluid, k: int, u: Vec2)
    requires f.Valid() && 0 <= k < f.phi.Size()
    ensures var ij := f.phi.IJFromIndex(k);
      Jittered(f, k, u) == Vec2((ij.i as real) * f.phi.h + u.x * f.phi.h, (ij.j as real) * f.phi.h + u.y * f.phi.h)
  {
    assert f.particleCount.IJFromIndex(k) == f.phi.IJFromIndex(k);
  }

  /** Along one axis of a centre-sampled grid of s cells, the world
      coordinate (i + u) h maps to the grid coordinate i + u - 0.5 without
      clamping. */
  lemma AxisCoordinate(i: int, u: real, h: real, s: int, x: real)
    requires 2 <= i <= s - 3 && 0.0 <= u <= 1.0 && 0.0 < h
    requires x == (i as real) * h + u * h
    ensures x / h + -0.5 == i as real + u - 0.5
    ensures 0.0 <= x / h + -0.5 <= (s - 1) as real
  {
    ScaledSum(i as real, u, h);
  }

  /** For 2 <= i <= s - 3 and u in [0, 1], i + u - 0.5 truncates to a
      value in [1, s - 3]. */
  lemma TruncNear(i: int, u: real, s: int)
    requires 2 <= i <= s - 3 && 0.0 <= u <= 1.0
    ensures 1 <= Trunc(i as real + u - 0.5) <= s - 3
  {
  }

  /** (a h + b h) / h == a + b. */
  lemma ScaledSum(a: real, b: real, h: real)
    requires h != 0.0
    ensures (a * h + b * h) / h == a + b
  {
    assert a * h + b * h == (a + b) * h;
    MulDivCancel(a + b, h);
  }

  /** In a grid with a cell in the seeding band the clamp box is not
      empty. */
  lemma {:induction false} SeedBoxNonEmpty(phi: Array2<real>, k: int)
    requires phi.Valid() && 0 <= k < phi.Size() && InSeedBand(phi, k)
    ensures SeedLow(phi) <= SeedHigh(phi)
  {
    var m := if phi.sx < phi.sy then phi.sy else phi.sx;
    assert 5 <= m;
    MulMonotone(2.001, m as real - 2.001, phi.h);
  }
}
