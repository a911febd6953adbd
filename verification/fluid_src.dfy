/** The earlier version of the fluid record: besides the centre-sampled
    phi it keeps a vertex-located resampling of phi for the particle level
    set, and counts particles on that vertex grid; particles are built from
    a three-component position whose z component is dropped. */
module FluidsSrc {
  import opened Geometry
  import opened Grids
  import Fluids

  /** `Particle(vec3 position, starting_phi, radius)`: the position keeps
      the x and y components. */
  function NewParticle(position: Vec3, startingPhi: real, radius: real): (p: Fluids.Particle)
    ensures p.position == Vec2(position.x, position.y)
    ensures p.startingPhi == startingPhi && p.radius == radius && p.valid
  {
    Fluids.Particle(Vec2(position.x, position.y), startingPhi, radius, true)
  }

  /** The z component has no effect on the particle. */
  lemma {:induction false} NewParticleIgnoresZ(a: Vec3, b: Vec3, startingPhi: real, radius: real)
    requires a.x == b.x && a.y == b.y
    ensures NewParticle(a, startingPhi, radius) == NewParticle(b, startingPhi, radius)
    ensures NewParticle(a, startingPhi, radius) ==
      Fluids.NewParticle(Vec2(a.x, a.y), startingPhi, radius)
  {
  }

  class Fluid {
    const density: real
    const phi: Array2<real>
    const plsPhi: Array2<real>
    const particleCount: Array2<int>
    var particles: seq<Fluids.Particle>

    /** phi is centre-sampled on sx * sy cells; plsPhi and the count grid
        share one vertex grid of (sx - 1) * (sy - 1) nodes at offset -1. */
    ghost predicate Valid()
    {
      phi.Valid() && plsPhi.Valid() && particleCount.Valid() &&
      plsPhi.sx == phi.sx - 1 && plsPhi.sy == phi.sy - 1 &&
      particleCount.sx == plsPhi.sx && particleCount.sy == plsPhi.sy &&
      plsPhi.h == phi.h && particleCount.h == phi.h &&
      phi.offsetX == -0.5 && phi.offsetY == -0.5 &&
      plsPhi.offsetX == -1.0 && plsPhi.offsetY == -1.0 &&
      particleCount.offsetX == -1.0 && particleCount.offsetY == -1.0 &&
      phi.zero == 0.0 && plsPhi.zero == 0.0 && particleCount.zero == 0
    }

    /** `Fluid(density, sx, sy, h)`: zero grids, the vertex grids one node
        smaller in each direction, and no particles. */
    constructor (density: real, sx: int, sy: int, h: real)
      requires 2 <= sx && 2 <= sy && 0.0 < h
      ensures Valid() && this.density == density && particles == []
      ensures phi.sx == sx && phi.sy == sy && phi.h == h
      ensures fresh(phi) && fresh(plsPhi) && fresh(particleCount)
      ensures forall k :: 0 <= k < phi.Size() ==> phi.data[k] == 0.0
      ensures forall k :: 0 <= k < plsPhi.Size() ==> plsPhi.data[k] == 0.0 && particleCount.data[k] == 0
    {
      this.density := density;
      phi := new Array2(sx, sy, -0.5, -0.5, h, 0.0);
      plsPhi := new Array2(sx - 1, sy - 1, -1.0, -1.0, h, 0.0);
      particleCount := new Array2(sx - 1, sy - 1, -1.0, -1.0, h, 0);
      particles := [];
    }
  }

  /** The vertex grid has exactly sx + sy - 1 fewer entries than phi. */
  lemma {:induction false} VertexGridSize(f: Fluid)
    requires f.Valid()
    ensures f.plsPhi.Size() == f.phi.Size() - f.phi.sx - f.phi.sy + 1
    ensures f.plsPhi.Size() < f.phi.Size()
  {
    var sx, sy := f.phi.sx, f.phi.sy;
    assert (sx - 1) * (sy - 1) == sx * sy - sx - sy + 1;
  }

  /** The vertex grid's node (i, j) is the upper-right corner of phi's
      cell (i, j): half a cell further along each axis in world space. */
  lemma {:induction false} VertexGridShift(f: Fluid, ij: Index2)
    requires f.Valid() && f.plsPhi.InBounds(ij)
    ensures var c := Vec2(ij.i as real, ij.j as real);
      f.plsPhi.WorldspaceOf(c) == Plus(f.phi.WorldspaceOf(c), Vec2(0.5 * f.phi.h, 0.5 * f.phi.h))
  {
    var c := Vec2(ij.i as real, ij.j as real);
    var h := f.phi.h;
    WorldPosition(f.plsPhi, c);
    WorldPosition(f.phi, c);
    var vertex := f.plsPhi.WorldspaceOf(c);
    var centre := f.phi.WorldspaceOf(c);
    AxisShift(c.x, h, h, -1.0, -0.5, vertex.x, centre.x);
    AxisShift(c.y, h, h, -1.0, -0.5, vertex.y, centre.y);
    assert vertex == Vec2(centre.x + 0.5 * h, centre.y + 0.5 * h);
  }

  /** `worldspace_of` scales the shifted coordinates by the cell size. */
  lemma WorldPosition(g: Array2<real>, c: Vec2)
    requires g.Valid() && 0.0 <= c.x <= (g.sx - 1) as real && 0.0 <= c.y <= (g.sy - 1) as real
    ensures g.WorldspaceOf(c).x == (c.x - g.offsetX) * g.h && g.WorldspaceOf(c).y == (c.y - g.offsetY) * g.h
  {
  }

  /** (x + 1) h is half a cell beyond (x + 0.5) h. */
  lemma AxisShift(x: real, vertexH: real, h: real, vertexOffset: real, centreOffset: real, vertex: real, centre: real)
    requires vertexH == h && vertexOffset == -1.0 && centreOffset == -0.5
    requires vertex == (x - vertexOffset) * vertexH && centre == (x - centreOffset) * h
    ensures vertex == centre + 0.5 * h
  {
  }
}
