/** `advect_particles`: every particle is moved with the code's RK4 through
    the velocity field, pushed back out along the solid's gradient when it
    lands inside the solid, and clamped into the box one cell away from the
    domain's walls. */
module ParticleAdvection {
  import opened Geometry
  import opened Grids
  import opened Calculus
  import opened Fluids
  import opened VelocityFields
  import Settings

  /** The push out of the solid is computable at w: where the solid level
      set solidAt is negative, the gradients it interpolates lie inside the
      grid (the asserts of `operator()(i, j)`). */
  predicate PushDefined(solid: Array2<real>, solidAt: Vec2 -> real, w: Vec2)
    requires solid.Valid()
  {
    solidAt(w) < 0.0 ==> CanInterpolateGradient(solid, w)
  }

  /** The upper end of the clamp box along an axis of s cells. */
  function BoxHigh(s: int, h: real): real
  {
    (s as real - 1.0) * h
  }

  /** The push out of the solid, whose values are solidVals and whose level
      set at a world position is solidAt: where that is negative at w, w
      moves against the interpolated gradient scaled by it; elsewhere it
      stays. */
  function Pushed(solid: Array2<real>, solidVals: seq<real>, solidAt: Vec2 -> real, w: Vec2): (r: Vec2)
    requires Holds(solid, solidVals) && PushDefined(solid, solidAt, w)
    ensures 0.0 <= solidAt(w) ==> r == w
  {
    var d := solidAt(w);
    if d < 0.0 then Minus(w, Scale(d, InterpolateGradient(solid, solidVals, w))) else w
  }

  /** The clamp of both coordinates into [h, (sx - 1) h] x [h, (sy - 1) h]
      of the solid grid; an axis of a single cell collapses to 0. */
  function Boxed(solid: Array2<real>, w: Vec2): (r: Vec2)
    requires solid.Valid()
    ensures 2 <= solid.sx ==> solid.h <= r.x <= BoxHigh(solid.sx, solid.h)
    ensures 2 <= solid.sy ==> solid.h <= r.y <= BoxHigh(solid.sy, solid.h)
    ensures solid.sx == 1 ==> r.x == 0.0
    ensures solid.sy == 1 ==> r.y == 0.0
    ensures solid.h <= w.x <= BoxHigh(solid.sx, solid.h) && solid.h <= w.y <= BoxHigh(solid.sy, solid.h) ==> r == w
  {
    BoxNonEmpty(solid.sx, solid.h);
    BoxNonEmpty(solid.sy, solid.h);
    Vec2(Clamp(w.x, solid.h, BoxHigh(solid.sx, solid.h)), Clamp(w.y, solid.h, BoxHigh(solid.sy, solid.h)))
  }

  /** One particle after a step of length dt through the velocity vel next
      to the solid: moved by RK4, pushed out of the solid and clamped into
      the box; only the position changes. */
  function Advected(vel: Vec2 -> Vec2, solid: Array2<real>, solidVals: seq<real>, solidAt: Vec2 -> real,
                    dt: real, p: Particle): (q: Particle)
    requires Holds(solid, solidVals) && PushDefined(solid, solidAt, Rk4(p.position, vel, dt))
    ensures q.radius == p.radius && q.startingPhi == p.startingPhi && q.valid == p.valid
  {
    p.(position := Boxed(solid, Pushed(solid, solidVals, solidAt, Rk4(p.position, vel, dt))))
  }

  /** `advect_particles(f, vel, solid_phi, dt)`: every particle is advected;
      their number and order are unchanged. */
  method AdvectParticles(f: Fluid, vel: VelocityField, solid: Array2<real>, dt: real)
    requires Valid(vel) && solid.Valid()
    requires forall n :: 0 <= n < |f.particles| ==>
      PushDefined(solid, Sampling(solid, solid.data[..]), Rk4(f.particles[n].position, Sampler(vel), dt))
    modifies f
    ensures |f.particles| == |old(f.particles)|
    ensures forall n :: 0 <= n < |f.particles| ==>
      f.particles[n] ==
        Advected(old(Sampler(vel)), solid, old(solid.data[..]), Sampling(solid, old(solid.data[..])), dt, old(f.particles[n]))
  {
    f.particles := AdvectEach(f.particles, Sampler(vel), solid, solid.data[..], Sampling(solid, solid.data[..]), dt);
  }

  /** The particle loop of `advect_particles` over the particles ps, with
      the velocity velAt and the solid's level set solidAt. */
  method AdvectEach(ps: seq<Particle>, velAt: Vec2 -> Vec2, solid: Array2<real>, solidVals: seq<real>,
                    solidAt: Vec2 -> real, dt: real) returns (moved: seq<Particle>)
    requires Holds(solid, solidVals)
    requires forall n :: 0 <= n < |ps| ==> PushDefined(solid, solidAt, Rk4(ps[n].position, velAt, dt))
    ensures |moved| == |ps|
    ensures forall n :: 0 <= n < |ps| ==> moved[n] == Advected(velAt, solid, solidVals, solidAt, dt, ps[n])
  {
    moved := [];
    var n := 0;
    while n < |ps|
      invariant 0 <= n <= |ps| && |moved| == n
      invariant forall m :: 0 <= m < n ==> moved[m] == Advected(velAt, solid, solidVals, solidAt, dt, ps[m])
    {
      var q := AdvectParticle(ps[n], velAt, solid, solidVals, solidAt, dt);
      moved := moved + [q];
      n := n + 1;
    }
  }

  /** The body of the particle loop: RK4, the push out of the solid, then
      the clamp of x and of y. */
  method AdvectParticle(p: Particle, velAt: Vec2 -> Vec2, solid: Array2<real>, solidVals: seq<real>,
                        solidAt: Vec2 -> real, dt: real) returns (q: Particle)
    requires Holds(solid, solidVals) && PushDefined(solid, solidAt, Rk4(p.position, velAt, dt))
    ensures q == Advected(velAt, solid, solidVals, solidAt, dt, p)
  {
    var moved := Rk4(p.position, velAt, dt);
    var position := moved;
    var localSolid := solidAt(position);
    if localSolid < 0.0 {
      position := Minus(position, Scale(localSolid, InterpolateGradient(solid, solidVals, position)));
    }
    assert position == Pushed(solid, solidVals, solidAt, moved);
    position := Vec2(Clamp(position.x, solid.h, (solid.sx as real - 1.0) * solid.h), position.y);
    position := Vec2(position.x, Clamp(position.y, solid.h, (solid.sy as real - 1.0) * solid.h));
    q := p.(position := position);
  }

  /** A particle at rest (zero step) outside the solid and inside the clamp
      box stays where it is. */
  lemma {:induction false} AdvectedAtRest(vel: Vec2 -> Vec2, solid: Array2<real>, solidVals: seq<real>,
                                          solidAt: Vec2 -> real, p: Particle)
    requires Holds(solid, solidVals) && 0.0 <= solidAt(p.position)
    requires solid.h <= p.position.x <= BoxHigh(solid.sx, solid.h)
    requires solid.h <= p.position.y <= BoxHigh(solid.sy, solid.h)
    ensures PushDefined(solid, solidAt, Rk4(p.position, vel, 0.0))
    ensures Advected(vel, solid, solidVals, solidAt, 0.0, p) == p
  {
    IntegratorsZeroStep(p.position, vel);
  }

  /** A constant velocity c moves a particle that stays clear of the solid
      and the walls by exactly c dt. */
  lemma {:induction false} AdvectedUniformFlow(vel: Vec2 -> Vec2, solid: Array2<real>, solidVals: seq<real>,
                                               solidAt: Vec2 -> real, dt: real, c: Vec2, p: Particle)
    requires Holds(solid, solidVals) && forall w :: vel(w) == c
    requires var target := Vec2(p.position.x + c.x * dt, p.position.y + c.y * dt);
      0.0 <= solidAt(target) &&
      solid.h <= target.x <= BoxHigh(solid.sx, solid.h) && solid.h <= target.y <= BoxHigh(solid.sy, solid.h)
    ensures PushDefined(solid, solidAt, Rk4(p.position, vel, dt))
    ensures Advected(vel, solid, solidVals, solidAt, dt, p).position == Vec2(p.position.x + c.x * dt, p.position.y + c.y * dt)
  {
    var target := Vec2(p.position.x + c.x * dt, p.position.y + c.y * dt);
    Rk4ConstantIsEuler(p.position, vel, dt, c);
    assert ForwardEuler(p.position, vel, dt) == target;
    var moved := Rk4(p.position, vel, dt);
    assert moved == target;
    assert Pushed(solid, solidVals, solidAt, moved) == target;
    assert Boxed(solid, target) == target;
  }

  /** For at least two cells the clamp box [h, (s - 1) h] is not empty, and
      for one cell it collapses to its upper end 0. */
  lemma BoxNonEmpty(s: int, h: real)
    requires 0.0 < h
    ensures 2 <= s ==> h <= BoxHigh(s, h)
    ensures s == 1 ==> BoxHigh(s, h) == 0.0 < h
  {
    if 2 <= s {
      MulMonotone(1.0, s as real - 1.0, h);
    }
  }

  // ---------------------------------------------------------------------
  // The push on the solid that `initialize_boundaries` builds

  /** solidVals is the solid level set of `initialize_boundaries` in
      lib/settings.hpp: -0.5 on the ring of wall cells, h / 2 elsewhere. */
  ghost predicate RingSolid(solid: Array2<real>, solidVals: seq<real>)
  {
    Holds(solid, solidVals) &&
    forall k :: 0 <= k < |solidVals| ==>
      solidVals[k] == Settings.WalledValue(solid.IJFromIndex(k), solid.sx, solid.sy, solid.h)
  }

  /** A particle that lands on the wall cell (0, 1) is inside the ring
      solid, so `advect_particles` pushes it; the gradient at its truncated
      cell (0, 1) then reads cell (-1, 1), outside the grid, and the
      asserts of `operator()(i, j)` fail. */
  lemma RingSolidPushLeavesGrid(solid: Array2<real>, solidVals: seq<real>)
    requires RingSolid(solid, solidVals) && 3 <= solid.sx && 3 <= solid.sy
    ensures var w := solid.WorldspaceOf(Vec2(0.0, 1.0));
      ValueAt(solid, solidVals, w) < 0.0 && BaseCell(solid, w) == Index2(0, 1) &&
      !CanInterpolateGradient(solid, w) && !solid.InBounds(Index2(-1, 1))
  {
    var w := solid.WorldspaceOf(Vec2(0.0, 1.0));
    WorldspaceRoundTrip(solid, Vec2(0.0, 1.0));
    BilerpAtNode(solid, solidVals, Index2(0, 1));
    IndexRoundTrip(solid, Index2(0, 1));
    TruncOfInteger(0);
    TruncOfInteger(1);
  }

  /** Wherever the gradient stencil of the push lies inside the grid, the
      ring solid samples to h / 2: such a position is never inside the
      solid, so under the requires of `AdvectParticles` the push out of
      the walls never takes place. */
  lemma {:induction false} RingSolidNeverPushes(solid: Array2<real>, solidVals: seq<real>, w: Vec2)
    requires RingSolid(solid, solidVals) && CanInterpolateGradient(solid, w)
    ensures ValueAt(solid, solidVals, w) == 0.5 * solid.h
  {
    var c := solid.CoordinatesAt(w);
    var b := BaseCell(solid, w);
    OpenCorner(solid, solidVals, c, b, 0, 0);
    OpenCorner(solid, solidVals, c, b, 1, 0);
    OpenCorner(solid, solidVals, c, b, 0, 1);
    OpenCorner(solid, solidVals, c, b, 1, 1);
    assert Plus(c, Vec2(0.0, 0.0)) == c;
  }

  /** The corner of the bilinear sample at offset (di, dj) from the base
      cell b is a cell off the ring, holding h / 2. */
  lemma OpenCorner(solid: Array2<real>, solidVals: seq<real>, c: Vec2, b: Index2, di: int, dj: int)
    requires RingSolid(solid, solidVals) && 0 <= di <= 1 && 0 <= dj <= 1
    requires 0.0 <= c.x && 0.0 <= c.y && b == Index2(Trunc(c.x), Trunc(c.y))
    requires 1 <= b.i <= solid.sx - 3 && 1 <= b.j <= solid.sy - 3
    ensures solidVals[solid.SnappedIndex(Plus(c, Vec2(di as real, dj as real)))] == 0.5 * solid.h
  {
    var cell := Index2(b.i + di, b.j + dj);
    TruncShift(c.x, di);
    TruncShift(c.y, dj);
    assert solid.SnappedIndex(Plus(c, Vec2(di as real, dj as real))) == solid.IndexFromIJ(cell);
    IndexRoundTrip(solid, cell);
  }

  /** Truncation of a non-negative number commutes with adding 0 or 1. */
  lemma TruncShift(r: real, d: int)
    requires 0.0 <= r && 0 <= d <= 1
    ensures Trunc(r + d as real) == Trunc(r) + d
  {
  }
}
