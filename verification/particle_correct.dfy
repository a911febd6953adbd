/** The two particle passes that act on the level set: `adjust_particle_radii`
    resizes every particle to its distance from the interface, and
    `correct_levelset` lets the particles that crossed the interface by more
    than their radius repair phi.  Positive escaped particles raise a copy of
    phi (phi+) at the four nodes around them, negative ones lower another
    copy (phi-), and every cell then takes whichever of the two is smaller in
    magnitude. */
module ParticleCorrection {
  import opened Geometry
  import opened Grids
  import opened Calculus
  import opened Fluids

  // ---------------------------------------------------------------------
  // Radii

  /** A particle whose radius is the magnitude of phiAt at its position,
      clamped into [0.1 h, 0.5 h]. */
  function Resized(phiAt: Vec2 -> real, h: real, p: Particle): (q: Particle)
    ensures q.position == p.position && q.startingPhi == p.startingPhi && q.valid == p.valid
    ensures 0.0 <= h ==> 0.1 * h <= q.radius <= 0.5 * h
    ensures 0.1 * h <= Abs(phiAt(p.position)) <= 0.5 * h ==> q.radius == Abs(phiAt(p.position))
  {
    p.(radius := Clamp(Abs(phiAt(p.position)), 0.1 * h, 0.5 * h))
  }

  /** `adjust_particle_radii`: every particle is resized against the fluid's
      level set; nothing else about the particles changes. */
  method AdjustParticleRadii(f: Fluid)
    requires f.Valid()
    modifies f
    ensures |f.particles| == |old(f.particles)|
    ensures forall n :: 0 <= n < |f.particles| ==>
      f.particles[n] == Resized(Sampling(f.phi, f.phi.data[..]), f.phi.h, old(f.particles[n]))
  {
    f.particles := ResizeEach(f.particles, Sampling(f.phi, f.phi.data[..]), f.phi.h);
  }

  /** The particle loop of `adjust_particle_radii` over the particles ps,
      with the level set phiAt of cell size h. */
  method ResizeEach(ps: seq<Particle>, phiAt: Vec2 -> real, h: real) returns (resized: seq<Particle>)
    ensures |resized| == |ps|
    ensures forall n :: 0 <= n < |ps| ==> resized[n] == Resized(phiAt, h, ps[n])
  {
    resized := [];
    var n := 0;
    while n < |ps|
      invariant 0 <= n <= |ps| && |resized| == n
      invariant forall m :: 0 <= m < n ==> resized[m] == Resized(phiAt, h, ps[m])
    {
      var p := ps[n];
      var localPhi := phiAt(p.position);
      resized := resized + [p.(radius := Clamp(Abs(localPhi), 0.1 * h, 0.5 * h))];
      n := n + 1;
    }
  }

  // ---------------------------------------------------------------------
  // Escaped particles and their corners

  /** The particle is used by the correction: phiAt at its position has the
      opposite sign of its starting phi (a zero counts as agreeing) and is at
      least its radius in magnitude. */
  predicate Escaped(phiAt: Vec2 -> real, p: Particle)
    ensures Escaped(phiAt, p) <==>
              ((p.startingPhi > 0.0 && phiAt(p.position) < 0.0) || (p.startingPhi < 0.0 && phiAt(p.position) > 0.0)) &&
              p.radius <= Abs(phiAt(p.position))
  {
    ProductSign(p.startingPhi, phiAt(p.position));
    !(p.startingPhi * phiAt(p.position) >= 0.0 || Abs(phiAt(p.position)) < p.radius)
  }

  /** A product is negative exactly when its factors have strictly opposite
      signs. */
  lemma ProductSign(a: real, b: real)
    ensures a * b < 0.0 <==> (a > 0.0 && b < 0.0) || (a < 0.0 && b > 0.0)
  {
    if a > 0.0 && b < 0.0 {
      MulPositive(a, -b);
    } else if a < 0.0 && b > 0.0 {
      MulPositive(-a, b);
    } else if a > 0.0 && b > 0.0 {
      MulPositive(a, b);
    } else if a < 0.0 && b < 0.0 {
      MulPositive(-a, -b);
    }
  }

  /** The four corner offsets, in the order the code visits them. */
  function Offsets(): seq<Index2>
  {
    [Index2(0, 0), Index2(1, 0), Index2(0, 1), Index2(1, 1)]
  }

  /** The nodes (i, j) .. (i + 1, j + 1) around the truncated grid
      coordinates of w are all inside the grid; `operator()(i, j)` and
      `worldspace_of` assert this for every node the correction visits. */
  predicate CornersInside(g: Array2<real>, w: Vec2)
    requires g.Valid()
  {
    var b := BaseCell(g, w);
    b.i + 1 <= g.sx - 1 && b.j + 1 <= g.sy - 1
  }

  /** Every escaped particle of ps has its corners inside the grid. */
  predicate AllCornersInside(g: Array2<real>, phiAt: Vec2 -> real, ps: seq<Particle>)
    requires g.Valid()
  {
    forall n :: 0 <= n < |ps| && Escaped(phiAt, ps[n]) ==> CornersInside(g, ps[n].position)
  }

  /** The node at offset o from the truncated grid coordinates of w. */
  function Corner(g: Array2<real>, w: Vec2, o: Index2): (c: Index2)
    requires g.Valid() && CornersInside(g, w) && o in Offsets()
    ensures g.InBounds(c)
  {
    var b := BaseCell(g, w);
    Index2(b.i + o.i, b.j + o.j)
  }

  /** The cell at flat position k is one of the four nodes around w. */
  predicate Touches(g: Array2<real>, w: Vec2, k: int)
    requires g.Valid() && 0 <= k < g.Size()
  {
    var b := BaseCell(g, w);
    var ij := g.IJFromIndex(k);
    b.i <= ij.i <= b.i + 1 && b.j <= ij.j <= b.j + 1
  }

  /** `sign_p`: +1 for a particle seeded outside, -1 otherwise. */
  function Sign(p: Particle): real
  {
    if p.startingPhi > 0.0 then 1.0 else -1.0
  }

  /** `phi_p`: the signed level set of the particle's sphere at the node at
      offset o, that is the radius minus the node's distance to the centre,
      with the particle's sign. */
  function CornerPhi(g: Array2<real>, p: Particle, o: Index2, math: MathLib): (r: real)
    requires g.Valid() && CornersInside(g, p.position) && o in Offsets()
    ensures SqrtSound(math) ==> Sign(p) * r <= p.radius
  {
    var c := Corner(g, p.position, o);
    Sign(p) * (p.radius - Distance(p.position, g.WorldspaceOf(Vec2(c.i as real, c.j as real)), math))
  }

  /** The value of cell k, v before, after particle p's update of its m-th
      node: a positive particle takes the larger of phi_p and the value, a
      negative one the smaller; other cells keep v. */
  function CornerStep(g: Array2<real>, p: Particle, math: MathLib, m: int, k: int, v: real): real
    requires g.Valid() && CornersInside(g, p.position) && 0 <= m < 4
  {
    var o := Offsets()[m];
    if g.IndexFromIJ(Corner(g, p.position, o)) != k then v
    else if Sign(p) > 0.0 then Max(CornerPhi(g, p, o, math), v)
    else Min(CornerPhi(g, p, o, math), v)
  }

  /** The value of cell k after the first m corner updates of particle p,
      starting from v. */
  function Splatted(g: Array2<real>, p: Particle, math: MathLib, m: int, k: int, v: real): real
    requires g.Valid() && CornersInside(g, p.position) && 0 <= m <= 4
  {
    if m == 0 then v else CornerStep(g, p, math, m - 1, k, Splatted(g, p, math, m - 1, k, v))
  }

  /** Cell k of phi+, v before, after particle p: only a positive escaped
      particle writes it. */
  function Raised(g: Array2<real>, phiAt: Vec2 -> real, math: MathLib, p: Particle, k: int, v: real): real
    requires g.Valid() && (Escaped(phiAt, p) ==> CornersInside(g, p.position))
  {
    if Escaped(phiAt, p) && Sign(p) > 0.0 then Splatted(g, p, math, 4, k, v) else v
  }

  /** Cell k of phi-, v before, after particle p: only a negative escaped
      particle writes it. */
  function Lowered(g: Array2<real>, phiAt: Vec2 -> real, math: MathLib, p: Particle, k: int, v: real): real
    requires g.Valid() && (Escaped(phiAt, p) ==> CornersInside(g, p.position))
  {
    if Escaped(phiAt, p) && Sign(p) < 0.0 then Splatted(g, p, math, 4, k, v) else v
  }

  // ---------------------------------------------------------------------
  // phi+, phi- and the merge

  /** Cell k of phi+ once the particles ps have been processed, starting
      from phi's values vals: only positive escaped particles write it. */
  function PlusAfter(g: Array2<real>, phiAt: Vec2 -> real, math: MathLib, ps: seq<Particle>,
                     vals: seq<real>, k: int): real
    requires Holds(g, vals) && 0 <= k < g.Size() && AllCornersInside(g, phiAt, ps)
    decreases |ps|
  {
    if ps == [] then vals[k]
    else Raised(g, phiAt, math, ps[|ps| - 1], k, PlusAfter(g, phiAt, math, ps[..|ps| - 1], vals, k))
  }

  /** Cell k of phi- likewise: only negative escaped particles write it. */
  function MinusAfter(g: Array2<real>, phiAt: Vec2 -> real, math: MathLib, ps: seq<Particle>,
                      vals: seq<real>, k: int): real
    requires Holds(g, vals) && 0 <= k < g.Size() && AllCornersInside(g, phiAt, ps)
    decreases |ps|
  {
    if ps == [] then vals[k]
    else Lowered(g, phiAt, math, ps[|ps| - 1], k, MinusAfter(g, phiAt, math, ps[..|ps| - 1], vals, k))
  }

  /** The merge of one cell: phi- when its magnitude is at most phi+'s,
      phi+ otherwise; the result has the smaller magnitude, and a tie goes
      to phi-. */
  function Merge(plus: real, minus: real): (r: real)
    ensures r == plus || r == minus
    ensures Abs(r) == Min(Abs(plus), Abs(minus))
    ensures Abs(plus) == Abs(minus) ==> r == minus
  {
    if Abs(plus) >= Abs(minus) then minus else plus
  }

  /** Cell k of phi after `correct_levelset`. */
  function Corrected(g: Array2<real>, phiAt: Vec2 -> real, math: MathLib, ps: seq<Particle>,
                     vals: seq<real>, k: int): real
    requires Holds(g, vals) && 0 <= k < g.Size() && AllCornersInside(g, phiAt, ps)
  {
    Merge(PlusAfter(g, phiAt, math, ps, vals, k), MinusAfter(g, phiAt, math, ps, vals, k))
  }

  /** `correct_levelset`: phi+ and phi- start as copies of phi, every
      escaped particle writes its four corners into one of them, and each
      cell of phi becomes the merge of the two. */
  method CorrectLevelset(f: Fluid, math: MathLib)
    requires f.Valid()
    requires AllCornersInside(f.phi, Sampling(f.phi, f.phi.data[..]), f.particles)
    modifies f.phi.data
    ensures forall k :: 0 <= k < f.phi.Size() ==>
      f.phi.data[k] == Corrected(f.phi, Sampling(f.phi, old(f.phi.data[..])), math, f.particles, old(f.phi.data[..]), k)
  {
    var phiAt := Sampling(f.phi, f.phi.data[..]);
    var phiMinus := new Array2.Copy(f.phi);
    var phiPlus := new Array2.Copy(f.phi);
    SplatAll(f.phi, phiAt, f.particles, f.phi.data[..], phiPlus, phiMinus, math);
    MergeInto(f.phi, phiPlus, phiMinus);
  }

  /** The particle loop of `correct_levelset`: phi+ and phi-, both holding
      phi's values vals at the start, receive the corner updates of every
      escaped particle in turn. */
  method SplatAll(g: Array2<real>, phiAt: Vec2 -> real, ps: seq<Particle>, ghost vals: seq<real>,
                  plus: Array2<real>, minus: Array2<real>, math: MathLib)
    requires Holds(g, vals) && plus.Valid() && minus.Valid() && AllCornersInside(g, phiAt, ps)
    requires plus.sx == g.sx && plus.sy == g.sy && minus.sx == g.sx && minus.sy == g.sy
    requires plus.data != minus.data && plus.data[..] == vals && minus.data[..] == vals
    modifies plus.data, minus.data
    ensures forall k :: 0 <= k < g.Size() ==>
      plus.data[k] == PlusAfter(g, phiAt, math, ps, vals, k) &&
      minus.data[k] == MinusAfter(g, phiAt, math, ps, vals, k)
  {
    var n := 0;
    while n < |ps|
      invariant 0 <= n <= |ps|
      invariant forall k :: 0 <= k < g.Size() ==>
        plus.data[k] == PlusAfter(g, phiAt, math, ps[..n], vals, k) &&
        minus.data[k] == MinusAfter(g, phiAt, math, ps[..n], vals, k)
    {
      var p := ps[n];
      var localPhi := phiAt(p.position);
      if !(p.startingPhi * localPhi >= 0.0 || Abs(localPhi) < p.radius) {
        Splat(g, p, plus, minus, math);
      }
      BuffersStep(g, phiAt, math, ps, vals, n);
      n := n + 1;
    }
    assert ps[..n] == ps;
  }

  /** The merge loop of `correct_levelset`: every cell of phi takes the
      merge of phi+ and phi-. */
  method MergeInto(phi: Array2<real>, plus: Array2<real>, minus: Array2<real>)
    requires phi.Valid() && plus.Valid() && minus.Valid()
    requires plus.sx == phi.sx && plus.sy == phi.sy && minus.sx == phi.sx && minus.sy == phi.sy
    requires phi.data != plus.data && phi.data != minus.data
    modifies phi.data
    ensures forall k :: 0 <= k < phi.Size() ==> phi.data[k] == Merge(plus.data[k], minus.data[k])
  {
    var i := 0;
    while i < phi.Size()
      invariant 0 <= i <= phi.Size()
      invariant forall k :: 0 <= k < i ==> phi.data[k] == Merge(plus.data[k], minus.data[k])
    {
      if Abs(plus.data[i]) >= Abs(minus.data[i]) {
        phi.data[i] := minus.data[i];
      } else {
        phi.data[i] := plus.data[i];
      }
      i := i + 1;
    }
  }

  /** The four corner updates of one escaped particle: into phi+ when it is
      positive, into phi- when it is negative. */
  method Splat(g: Array2<real>, p: Particle, plus: Array2<real>, minus: Array2<real>, math: MathLib)
    requires g.Valid() && plus.Valid() && minus.Valid() && CornersInside(g, p.position)
    requires plus.sx == g.sx && plus.sy == g.sy && minus.sx == g.sx && minus.sy == g.sy
    requires plus.data != minus.data
    modifies plus.data, minus.data
    ensures forall k :: 0 <= k < g.Size() ==>
      plus.data[k] == (if Sign(p) > 0.0 then Splatted(g, p, math, 4, k, old(plus.data[k])) else old(plus.data[k])) &&
      minus.data[k] == (if Sign(p) > 0.0 then old(minus.data[k]) else Splatted(g, p, math, 4, k, old(minus.data[k])))
  {
    var m := 0;
    while m < 4
      invariant 0 <= m <= 4
      invariant forall k :: 0 <= k < g.Size() ==>
        plus.data[k] == (if Sign(p) > 0.0 then Splatted(g, p, math, m, k, old(plus.data[k])) else old(plus.data[k])) &&
        minus.data[k] == (if Sign(p) > 0.0 then old(minus.data[k]) else Splatted(g, p, math, m, k, old(minus.data[k])))
    {
      SplatCorner(g, p, plus, minus, math, m);
      m := m + 1;
    }
  }

  /** One pass of the offset loop: phi_p at the m-th node, combined into
      that node of phi+ by max for a positive particle, of phi- by min for a
      negative one. */
  method SplatCorner(g: Array2<real>, p: Particle, plus: Array2<real>, minus: Array2<real>, math: MathLib, m: int)
    requires g.Valid() && plus.Valid() && minus.Valid() && CornersInside(g, p.position) && 0 <= m < 4
    requires plus.sx == g.sx && plus.sy == g.sy && minus.sx == g.sx && minus.sy == g.sy
    requires plus.data != minus.data
    modifies plus.data, minus.data
    ensures forall k :: 0 <= k < g.Size() ==>
      plus.data[k] == (if Sign(p) > 0.0 then CornerStep(g, p, math, m, k, old(plus.data[k])) else old(plus.data[k])) &&
      minus.data[k] == (if Sign(p) > 0.0 then old(minus.data[k]) else CornerStep(g, p, math, m, k, old(minus.data[k])))
  {
    var signP := if p.startingPhi > 0.0 then 1.0 else -1.0;
    var gridPosition := BaseCell(g, p.position);
    var offset := Offsets()[m];
    var cell := Index2(gridPosition.i + offset.i, gridPosition.j + offset.j);
    var phiP := signP * (p.radius - Distance(p.position, g.WorldspaceOf(Vec2(cell.i as real, cell.j as real)), math));
    assert cell == Corner(g, p.position, offset) && phiP == CornerPhi(g, p, offset, math);
    if signP > 0.0 {
      plus.Write(cell, Max(phiP, plus.At(cell)));
    } else {
      minus.Write(cell, Min(phiP, minus.At(cell)));
    }
  }

  /** One more particle: the buffers after ps[..n + 1] are those after
      ps[..n] with ps[n]'s updates. */
  lemma BuffersStep(g: Array2<real>, phiAt: Vec2 -> real, math: MathLib, ps: seq<Particle>, vals: seq<real>, n: int)
    requires Holds(g, vals) && AllCornersInside(g, phiAt, ps) && 0 <= n < |ps|
    ensures AllCornersInside(g, phiAt, ps[..n]) && AllCornersInside(g, phiAt, ps[..n + 1])
    ensures forall k :: 0 <= k < g.Size() ==>
      PlusAfter(g, phiAt, math, ps[..n + 1], vals, k) == Raised(g, phiAt, math, ps[n], k, PlusAfter(g, phiAt, math, ps[..n], vals, k)) &&
      MinusAfter(g, phiAt, math, ps[..n + 1], vals, k) == Lowered(g, phiAt, math, ps[n], k, MinusAfter(g, phiAt, math, ps[..n], vals, k))
  {
    assert ps[..n + 1][..n] == ps[..n];
  }

  // ---------------------------------------------------------------------
  // Properties

  /** A positive particle's updates never lower a value and a negative
      one's never raise it, from any step m1 to a later step m2. */
  lemma {:induction false} SplattedMonotone(g: Array2<real>, p: Particle, math: MathLib, m1: int, m2: int, k: int, v: real)
    requires g.Valid() && CornersInside(g, p.position) && 0 <= m1 <= m2 <= 4
    ensures Sign(p) > 0.0 ==> Splatted(g, p, math, m2, k, v) >= Splatted(g, p, math, m1, k, v)
    ensures Sign(p) < 0.0 ==> Splatted(g, p, math, m2, k, v) <= Splatted(g, p, math, m1, k, v)
    decreases m2 - m1
  {
    if m1 < m2 {
      SplattedMonotone(g, p, math, m1, m2 - 1, k, v);
    }
  }

  /** A cell that is none of the particle's four nodes is left alone. */
  lemma {:induction false} SplattedUntouched(g: Array2<real>, p: Particle, math: MathLib, m: int, k: int, v: real)
    requires g.Valid() && CornersInside(g, p.position) && 0 <= m <= 4 && 0 <= k < g.Size()
    requires !Touches(g, p.position, k)
    ensures Splatted(g, p, math, m, k, v) == v
    decreases m
  {
    if m > 0 {
      SplattedUntouched(g, p, math, m - 1, k, v);
      var c := Corner(g, p.position, Offsets()[m - 1]);
      if g.IndexFromIJ(c) == k {
        IndexInjective(g, c, g.IJFromIndex(k));
        assert false;
      }
    }
  }

  /** After a particle's four updates, each of its nodes holds at least its
      phi_p when it is positive, at most its phi_p when it is negative. */
  lemma {:induction false} SplattedReaches(g: Array2<real>, p: Particle, math: MathLib, m: int, v: real)
    requires g.Valid() && CornersInside(g, p.position) && 0 <= m < 4
    ensures var k := g.IndexFromIJ(Corner(g, p.position, Offsets()[m]));
      (Sign(p) > 0.0 ==> Splatted(g, p, math, 4, k, v) >= CornerPhi(g, p, Offsets()[m], math)) &&
      (Sign(p) < 0.0 ==> Splatted(g, p, math, 4, k, v) <= CornerPhi(g, p, Offsets()[m], math))
  {
    var k := g.IndexFromIJ(Corner(g, p.position, Offsets()[m]));
    SplattedMonotone(g, p, math, m + 1, 4, k, v);
  }

  /** phi+ never falls below phi and phi- never rises above it. */
  lemma {:induction false} BuffersBracketPhi(g: Array2<real>, phiAt: Vec2 -> real, math: MathLib,
                                             ps: seq<Particle>, vals: seq<real>, k: int)
    requires Holds(g, vals) && 0 <= k < g.Size() && AllCornersInside(g, phiAt, ps)
    ensures MinusAfter(g, phiAt, math, ps, vals, k) <= vals[k] <= PlusAfter(g, phiAt, math, ps, vals, k)
    decreases |ps|
  {
    if ps != [] {
      var init := ps[..|ps| - 1];
      var p := ps[|ps| - 1];
      BuffersBracketPhi(g, phiAt, math, init, vals, k);
      if Escaped(phiAt, p) {
        SplattedMonotone(g, p, math, 0, 4, k, PlusAfter(g, phiAt, math, init, vals, k));
        SplattedMonotone(g, p, math, 0, 4, k, MinusAfter(g, phiAt, math, init, vals, k));
      }
    }
  }

  /** Later particles only raise phi+ and only lower phi-: the buffers after
      all of ps bound the buffers after any prefix. */
  lemma {:induction false} BuffersMonotone(g: Array2<real>, phiAt: Vec2 -> real, math: MathLib,
                                           ps: seq<Particle>, vals: seq<real>, j: int, k: int)
    requires Holds(g, vals) && 0 <= k < g.Size() && AllCornersInside(g, phiAt, ps) && 0 <= j <= |ps|
    ensures PlusAfter(g, phiAt, math, ps[..j], vals, k) <= PlusAfter(g, phiAt, math, ps, vals, k)
    ensures MinusAfter(g, phiAt, math, ps, vals, k) <= MinusAfter(g, phiAt, math, ps[..j], vals, k)
    decreases |ps|
  {
    if j < |ps| {
      var init := ps[..|ps| - 1];
      var p := ps[|ps| - 1];
      assert init[..j] == ps[..j];
      BuffersMonotone(g, phiAt, math, init, vals, j, k);
      if Escaped(phiAt, p) {
        SplattedMonotone(g, p, math, 0, 4, k, PlusAfter(g, phiAt, math, init, vals, k));
        SplattedMonotone(g, p, math, 0, 4, k, MinusAfter(g, phiAt, math, init, vals, k));
      }
    } else {
      assert ps[..j] == ps;
    }
  }

  /** phi+ at each node of a positive escaped particle is at least that
      particle's phi_p, and phi- at each node of a negative one at most its
      phi_p, whatever the other particles do. */
  lemma {:induction false} BuffersCoverParticles(g: Array2<real>, phiAt: Vec2 -> real, math: MathLib,
                                                 ps: seq<Particle>, vals: seq<real>, n: int, m: int)
    requires Holds(g, vals) && AllCornersInside(g, phiAt, ps)
    requires 0 <= n < |ps| && Escaped(phiAt, ps[n]) && 0 <= m < 4
    ensures var k := g.IndexFromIJ(Corner(g, ps[n].position, Offsets()[m]));
      0 <= k < g.Size() &&
      (Sign(ps[n]) > 0.0 ==> PlusAfter(g, phiAt, math, ps, vals, k) >= CornerPhi(g, ps[n], Offsets()[m], math)) &&
      (Sign(ps[n]) < 0.0 ==> MinusAfter(g, phiAt, math, ps, vals, k) <= CornerPhi(g, ps[n], Offsets()[m], math))
  {
    var p := ps[n];
    var c := Corner(g, p.position, Offsets()[m]);
    FlatIndexBounds(g.sx, g.sy, c.i, c.j);
    var k := g.IndexFromIJ(c);
    var upTo := ps[..n + 1];
    assert upTo[..n] == ps[..n];
    assert upTo[n] == p;
    SplattedReaches(g, p, math, m, PlusAfter(g, phiAt, math, ps[..n], vals, k));
    SplattedReaches(g, p, math, m, MinusAfter(g, phiAt, math, ps[..n], vals, k));
    BuffersMonotone(g, phiAt, math, ps, vals, n + 1, k);
  }

  /** A cell that no escaped particle touches keeps its value in both
      buffers, and so after the merge. */
  lemma {:induction false} CorrectedUntouched(g: Array2<real>, phiAt: Vec2 -> real, math: MathLib,
                                              ps: seq<Particle>, vals: seq<real>, k: int)
    requires Holds(g, vals) && 0 <= k < g.Size() && AllCornersInside(g, phiAt, ps)
    requires forall n :: 0 <= n < |ps| && Escaped(phiAt, ps[n]) ==> !Touches(g, ps[n].position, k)
    ensures PlusAfter(g, phiAt, math, ps, vals, k) == vals[k]
    ensures MinusAfter(g, phiAt, math, ps, vals, k) == vals[k]
    ensures Corrected(g, phiAt, math, ps, vals, k) == vals[k]
    decreases |ps|
  {
    if ps != [] {
      var init := ps[..|ps| - 1];
      var p := ps[|ps| - 1];
      CorrectedUntouched(g, phiAt, math, init, vals, k);
      if Escaped(phiAt, p) {
        SplattedUntouched(g, p, math, 4, k, vals[k]);
      }
    }
  }

  /** The corrected value lies between phi- and phi+. */
  lemma {:induction false} CorrectedBetween(g: Array2<real>, phiAt: Vec2 -> real, math: MathLib,
                                            ps: seq<Particle>, vals: seq<real>, k: int)
    requires Holds(g, vals) && 0 <= k < g.Size() && AllCornersInside(g, phiAt, ps)
    ensures MinusAfter(g, phiAt, math, ps, vals, k) <= Corrected(g, phiAt, math, ps, vals, k)
    ensures Corrected(g, phiAt, math, ps, vals, k) <= PlusAfter(g, phiAt, math, ps, vals, k)
  {
    BuffersBracketPhi(g, phiAt, math, ps, vals, k);
  }

  /** Particles of one sign cannot flip a cell of the other sign: where no
      negative escaped particle exists, a non-negative cell keeps its value,
      and where no positive one exists, a non-positive cell keeps it. */
  lemma {:induction false} OneSignedCorrection(g: Array2<real>, phiAt: Vec2 -> real, math: MathLib,
                                               ps: seq<Particle>, vals: seq<real>, k: int)
    requires Holds(g, vals) && 0 <= k < g.Size() && AllCornersInside(g, phiAt, ps)
    ensures (forall n :: 0 <= n < |ps| && Escaped(phiAt, ps[n]) ==> Sign(ps[n]) > 0.0) && 0.0 <= vals[k] ==>
      Corrected(g, phiAt, math, ps, vals, k) == vals[k]
    ensures (forall n :: 0 <= n < |ps| && Escaped(phiAt, ps[n]) ==> Sign(ps[n]) < 0.0) && vals[k] <= 0.0 ==>
      Corrected(g, phiAt, math, ps, vals, k) == vals[k]
  {
    BuffersBracketPhi(g, phiAt, math, ps, vals, k);
    if forall n :: 0 <= n < |ps| && Escaped(phiAt, ps[n]) ==> Sign(ps[n]) > 0.0 {
      OnlyPositive(g, phiAt, math, ps, vals, k);
    }
    if forall n :: 0 <= n < |ps| && Escaped(phiAt, ps[n]) ==> Sign(ps[n]) < 0.0 {
      OnlyNegative(g, phiAt, math, ps, vals, k);
    }
  }

  /** Without negative escaped particles phi- is phi. */
  lemma {:induction false} OnlyPositive(g: Array2<real>, phiAt: Vec2 -> real, math: MathLib,
                                        ps: seq<Particle>, vals: seq<real>, k: int)
    requires Holds(g, vals) && 0 <= k < g.Size() && AllCornersInside(g, phiAt, ps)
    requires forall n :: 0 <= n < |ps| && Escaped(phiAt, ps[n]) ==> Sign(ps[n]) > 0.0
    ensures MinusAfter(g, phiAt, math, ps, vals, k) == vals[k]
    decreases |ps|
  {
    if ps != [] {
      OnlyPositive(g, phiAt, math, ps[..|ps| - 1], vals, k);
    }
  }

  /** Without positive escaped particles phi+ is phi. */
  lemma {:induction false} OnlyNegative(g: Array2<real>, phiAt: Vec2 -> real, math: MathLib,
                                        ps: seq<Particle>, vals: seq<real>, k: int)
    requires Holds(g, vals) && 0 <= k < g.Size() && AllCornersInside(g, phiAt, ps)
    requires forall n :: 0 <= n < |ps| && Escaped(phiAt, ps[n]) ==> Sign(ps[n]) < 0.0
    ensures PlusAfter(g, phiAt, math, ps, vals, k) == vals[k]
    decreases |ps|
  {
    if ps != [] {
      OnlyNegative(g, phiAt, math, ps[..|ps| - 1], vals, k);
    }
  }
}
