/** The regular 2D grid every field of the simulator lives on (`Array2<T>`):
    `sx` by `sy` values stored row-major in one flat buffer, a cell size `h`
    and an offset that places index (0, 0) relative to the world origin, in
    cells.  World positions map to grid coordinates by `x / h + offset` with a
    clamp to the grid, and values are sampled by bilinear interpolation over
    truncated-and-clamped corner lookups, so no query ever leaves the buffer. */
module Grids {
  import opened Geometry

  /** An integer cell index (i, j); the source carries these in a `vec2`. */
  datatype Index2 = Index2(i: int, j: int)

  /** A value-semantics grid.  Its dimensions, offsets and cell size are fixed
      when it is built (the source sets them in `init`, always on a grid that
      has no data yet), and its values sit in a buffer of length `sx * sy`.
      `zero` is the element type's zero, `static_cast<T>(0)` in the source. */
  class Array2<T(0)> {
    const sx: int
    const sy: int
    const offsetX: real
    const offsetY: real
    const h: real
    const zero: T
    const data: array<T>

    ghost predicate Valid()
    {
      1 <= sx && 1 <= sy && 0.0 < h && data.Length == sx * sy
    }

    /** `Array2(sx, sy, offset_x, offset_y, h)` and `init`: a buffer of
        `sx * sy` values, all cleared to zero. */
    constructor (sx: int, sy: int, offsetX: real, offsetY: real, h: real, zero: T)
      requires 1 <= sx && 1 <= sy && 0.0 < h
      ensures Valid() && fresh(data)
      ensures this.sx == sx && this.sy == sy && this.h == h && this.zero == zero
      ensures this.offsetX == offsetX && this.offsetY == offsetY
      ensures forall k :: 0 <= k < data.Length ==> data[k] == zero
    {
      this.sx, this.sy := sx, sy;
      this.offsetX, this.offsetY := offsetX, offsetY;
      this.h, this.zero := h, zero;
      ProductPositive(sx, sy);
      data := new T[sx * sy];
      new;
      Clear();
    }

    /** The copy constructor: same dimensions and placement, an independent
        buffer holding the same values. */
    constructor Copy(src: Array2<T>)
      requires src.Valid()
      ensures Valid() && fresh(data)
      ensures sx == src.sx && sy == src.sy && h == src.h && zero == src.zero
      ensures offsetX == src.offsetX && offsetY == src.offsetY
      ensures data[..] == src.data[..]
    {
      sx, sy := src.sx, src.sy;
      offsetX, offsetY := src.offsetX, src.offsetY;
      h, zero := src.h, src.zero;
      data := new T[src.data.Length];
      new;
      var k := 0;
      while k < data.Length
        invariant 0 <= k <= data.Length
        invariant forall m :: 0 <= m < k ==> data[m] == src.data[m]
      {
        data[k] := src.data[k];
        k := k + 1;
      }
    }

    function Size(): int
    {
      sx * sy
    }

    /** `set(val)`: every element becomes `val`. */
    method Set(val: T)
      modifies data
      ensures forall k :: 0 <= k < data.Length ==> data[k] == val
    {
      var k := 0;
      while k < data.Length
        invariant 0 <= k <= data.Length
        invariant forall m :: 0 <= m < k ==> data[m] == val
      {
        data[k] := val;
        k := k + 1;
      }
    }

    /** `clear()`: every element becomes zero. */
    method Clear()
      modifies data
      ensures forall k :: 0 <= k < data.Length ==> data[k] == zero
    {
      Set(zero);
    }

    /** Copy assignment between grids of one shape (`phi = new_phi`). */
    method CopyFrom(src: Array2<T>)
      requires Valid() && src.Valid() && src.sx == sx && src.sy == sy
      modifies data
      ensures data[..] == old(src.data[..])
    {
      ghost var before := src.data[..];
      var k := 0;
      while k < data.Length
        invariant 0 <= k <= data.Length
        invariant src.data == data || src.data[..] == before
        invariant forall m :: 0 <= m < k ==> data[m] == before[m]
        invariant src.data == data ==> forall m :: k <= m < data.Length ==> data[m] == before[m]
      {
        data[k] := src.data[k];
        k := k + 1;
      }
    }

    predicate InBounds(ij: Index2)
    {
      0 <= ij.i < sx && 0 <= ij.j < sy
    }

    /** `index_from_ij`: the flat position of cell (i, j). */
    function IndexFromIJ(ij: Index2): (k: int)
      ensures InBounds(ij) ==> 0 <= k < Size()
    {
      FlatIndexInside(sx, sy, ij.i, ij.j);
      ij.i + sx * ij.j
    }

    /** `ij_from_index`: the cell whose flat position is `k`. */
    function IJFromIndex(k: int): (ij: Index2)
      requires Valid() && 0 <= k < Size()
      ensures InBounds(ij) && IndexFromIJ(ij) == k
    {
      DivModBounds(sx, sy, k);
      Index2(k % sx, k / sx)
    }

    /** The flat accessor `operator()(int)` with the bound the buffer needs. */
    function Get(k: int): (r: T)
      requires Valid() && 0 <= k < Size()
      reads data
      ensures r == At(IJFromIndex(k))
    {
      data[k]
    }

    /** `operator()(i, j)` as a read. */
    function At(ij: Index2): (r: T)
      requires Valid() && InBounds(ij)
      reads data
      ensures r in data[..]
    {
      FlatIndexBounds(sx, sy, ij.i, ij.j);
      data[IndexFromIJ(ij)]
    }

    /** `operator()(i, j) = x`: only the element at i + sx * j changes. */
    method Write(ij: Index2, x: T)
      requires Valid() && InBounds(ij)
      modifies data
      ensures 0 <= IndexFromIJ(ij) < Size()
      ensures data[..] == old(data[..])[IndexFromIJ(ij) := x]
    {
      FlatIndexBounds(sx, sy, ij.i, ij.j);
      data[IndexFromIJ(ij)] := x;
    }

    /** `operator()(i) = x` with the bound the buffer needs. */
    method WriteFlat(k: int, x: T)
      requires Valid() && 0 <= k < Size()
      modifies data
      ensures data[..] == old(data[..])[k := x]
    {
      data[k] := x;
    }

    /** `coordinates_at`: world position to grid coordinates, clamped to
        [0, sx - 1] x [0, sy - 1]. */
    function CoordinatesAt(w: Vec2): (c: Vec2)
      requires Valid()
      ensures 0.0 <= c.x <= (sx - 1) as real && 0.0 <= c.y <= (sy - 1) as real
      ensures 0.0 <= w.x / h + offsetX <= (sx - 1) as real ==> c.x == w.x / h + offsetX
      ensures 0.0 <= w.y / h + offsetY <= (sy - 1) as real ==> c.y == w.y / h + offsetY
    {
      Vec2(ClampCoordinate(w.x / h + offsetX, sx), ClampCoordinate(w.y / h + offsetY, sy))
    }

    /** `worldspace_of`: grid coordinates back to a world position. */
    function WorldspaceOf(c: Vec2): (w: Vec2)
      requires Valid()
      requires 0.0 <= c.x <= (sx - 1) as real && 0.0 <= c.y <= (sy - 1) as real
    {
      Vec2((c.x - offsetX) * h, (c.y - offsetY) * h)
    }

    /** `wp_from_index`: the world position of the cell at flat position k. */
    function WpFromIndex(k: int): Vec2
      requires Valid() && 0 <= k < Size()
    {
      var ij := IJFromIndex(k);
      WorldspaceOf(Vec2(ij.i as real, ij.j as real))
    }

    /** The flat index `snapped_access` reads: truncate toward zero, then
        clamp each coordinate into the grid. */
    function SnappedIndex(c: Vec2): (k: int)
      requires Valid()
      ensures 0 <= k < Size()
    {
      var i := ClampIndex(Trunc(c.x), sx);
      var j := ClampIndex(Trunc(c.y), sy);
      FlatIndexBounds(sx, sy, i, j);
      IndexFromIJ(Index2(i, j))
    }

    /** `snapped_access`. */
    function SnappedAccess(c: Vec2): (r: T)
      requires Valid()
      reads data
      ensures r in data[..]
    {
      data[SnappedIndex(c)]
    }
  }

  /** One axis of the clamp in `coordinates_at`. */
  function ClampCoordinate(c: real, s: int): (r: real)
    requires 1 <= s
    ensures 0.0 <= r <= (s - 1) as real
    ensures 0.0 <= c <= (s - 1) as real ==> r == c
  {
    var lower := if c < 0.0 then 0.0 else c;
    if lower > (s - 1) as real then (s - 1) as real else lower
  }

  /** One axis of the clamp in `snapped_access`. */
  function ClampIndex(n: int, s: int): (r: int)
    requires 1 <= s
    ensures 0 <= r < s
    ensures 0 <= n < s ==> r == n
  {
    var lower := if n < 0 then 0 else n;
    if lower > s - 1 then s - 1 else lower
  }

  /** `subcell_coordinates`: the fractional part left after truncation. */
  function Subcell(c: Vec2): (f: Vec2)
    ensures 0.0 <= c.x ==> 0.0 <= f.x < 1.0
    ensures 0.0 <= c.y ==> 0.0 <= f.y < 1.0
  {
    Vec2(c.x - Trunc(c.x) as real, c.y - Trunc(c.y) as real)
  }

  /** `lerp`: the blend (1 - f) * a + f * b. */
  function Lerp(a: real, b: real, f: real): (r: real)
    ensures f == 0.0 ==> r == a
    ensures f == 1.0 ==> r == b
    ensures a == b ==> r == a
    ensures 0.0 <= f <= 1.0 ==> Min(a, b) <= r <= Max(a, b)
  {
    var r := (1.0 - f) * a + f * b;
    LerpBetween(a, b, f, r);
    r
  }

  /** A blend with a weight in [0, 1] lies between its two ends. */
  lemma LerpBetween(a: real, b: real, f: real, r: real)
    requires r == (1.0 - f) * a + f * b
    ensures 0.0 <= f <= 1.0 ==> Min(a, b) <= r <= Max(a, b)
  {
    var d := b - a;
    assert r == a + f * d;
    if 0.0 <= f <= 1.0 {
      if a <= b {
        MulMonotone(0.0, f, d);
        MulMonotone(f, 1.0, d);
        assert 0.0 <= f * d <= d;
      } else {
        MulMonotone(0.0, f, -d);
        MulMonotone(f, 1.0, -d);
        assert f * (-d) == -(f * d);
        assert d <= f * d <= 0.0;
      }
    }
  }

  /** `lerp_2`: blend along x on both rows, then along y. */
  function Lerp2(v00: real, v10: real, v01: real, v11: real, f: Vec2): (r: real)
    ensures f == Vec2(0.0, 0.0) ==> r == v00
    ensures v00 == v10 == v01 == v11 ==> r == v00
  {
    Lerp(Lerp(v00, v10, f.x), Lerp(v01, v11, f.x), f.y)
  }

  /** The values of a grid are its buffer's contents; sampling takes them as
      a sequence, read from the grid at the point of the call. */
  ghost predicate Holds(g: Array2<real>, vals: seq<real>)
  {
    g.Valid() && |vals| == g.Size()
  }

  /** `bilerp`: bilinear interpolation at grid coordinates c over the four
      snapped corners c, c + (1, 0), c + (0, 1) and c + (1, 1). */
  function Bilerp(g: Array2<real>, vals: seq<real>, c: Vec2): (r: real)
    requires Holds(g, vals)
    ensures 0 < |vals|
    ensures 0.0 <= c.x && 0.0 <= c.y ==> SeqMin(vals) <= r <= SeqMax(vals)
  {
    ProductPositive(g.sx, g.sy);
    var v00 := vals[g.SnappedIndex(c)];
    var v10 := vals[g.SnappedIndex(Plus(c, Vec2(1.0, 0.0)))];
    var v01 := vals[g.SnappedIndex(Plus(c, Vec2(0.0, 1.0)))];
    var v11 := vals[g.SnappedIndex(Plus(c, Vec2(1.0, 1.0)))];
    Lerp2(v00, v10, v01, v11, Subcell(c))
  }

  /** `value_at`: the grid sampled at a world position. */
  function ValueAt(g: Array2<real>, vals: seq<real>, w: Vec2): (r: real)
    requires Holds(g, vals)
    ensures 0 < |vals| && SeqMin(vals) <= r <= SeqMax(vals)
  {
    Bilerp(g, vals, g.CoordinatesAt(w))
  }

  /** `value_at` over the values vals, as a function of the world
      position. */
  function Sampling(g: Array2<real>, vals: seq<real>): Vec2 -> real
    requires Holds(g, vals)
  {
    (w: Vec2) => ValueAt(g, vals, w)
  }

  /** Every value equals c. */
  ghost predicate Constant(vals: seq<real>, c: real)
  {
    forall k :: 0 <= k < |vals| ==> vals[k] == c
  }

  // ---------------------------------------------------------------------
  // Reductions

  /** The largest element (`*std::max_element`). */
  function SeqMax(s: seq<real>): (m: real)
    requires |s| > 0
    ensures m in s
    ensures forall k :: 0 <= k < |s| ==> s[k] <= m
  {
    if |s| == 1 then s[0]
    else
      var rest := SeqMax(s[1..]);
      if s[0] < rest then rest else s[0]
  }

  /** The smallest element (`*std::min_element`). */
  function SeqMin(s: seq<real>): (m: real)
    requires |s| > 0
    ensures m in s
    ensures forall k :: 0 <= k < |s| ==> m <= s[k]
  {
    if |s| == 1 then s[0]
    else
      var rest := SeqMin(s[1..]);
      if rest < s[0] then rest else s[0]
  }

  /** `max()`. */
  function GridMax(g: Array2<real>): (m: real)
    requires g.Valid()
    reads g.data
    ensures forall k :: 0 <= k < g.data.Length ==> g.data[k] <= m
    ensures exists k :: 0 <= k < g.data.Length && g.data[k] == m
  {
    ProductPositive(g.sx, g.sy);
    var m := SeqMax(g.data[..]);
    assert g.data[..][0] == g.data[0];
    m
  }

  /** `min()`. */
  function GridMin(g: Array2<real>): (m: real)
    requires g.Valid()
    reads g.data
    ensures forall k :: 0 <= k < g.data.Length ==> m <= g.data[k]
    ensures exists k :: 0 <= k < g.data.Length && g.data[k] == m
  {
    ProductPositive(g.sx, g.sy);
    var m := SeqMin(g.data[..]);
    assert g.data[..][0] == g.data[0];
    m
  }

  /** `infnorm()`: the largest magnitude, starting from 0. */
  method InfNorm(g: Array2<real>) returns (best: real)
    ensures 0.0 <= best
    ensures forall k :: 0 <= k < g.data.Length ==> Abs(g.data[k]) <= best
    ensures best == 0.0 || exists k :: 0 <= k < g.data.Length && Abs(g.data[k]) == best
  {
    best := 0.0;
    var k := 0;
    while k < g.data.Length
      invariant 0 <= k <= g.data.Length
      invariant 0.0 <= best
      invariant forall m :: 0 <= m < k ==> Abs(g.data[m]) <= best
      invariant best == 0.0 || exists m :: 0 <= m < k && Abs(g.data[m]) == best
    {
      if Abs(g.data[k]) > best {
        best := Abs(g.data[k]);
      }
      k := k + 1;
    }
  }

  // ---------------------------------------------------------------------
  // Properties of the coordinate maps and of sampling

  /** Bilinear sampling at an integer grid point returns the stored value,
      also on the last row and column, where the +1 corners are clamped. */
  lemma {:induction false} BilerpAtNode(g: Array2<real>, vals: seq<real>, ij: Index2)
    requires Holds(g, vals) && g.InBounds(ij)
    ensures 0 <= g.IndexFromIJ(ij) < |vals|
    ensures Bilerp(g, vals, Vec2(ij.i as real, ij.j as real)) == vals[g.IndexFromIJ(ij)]
  {
    var c := Vec2(ij.i as real, ij.j as real);
    TruncOfInteger(ij.i);
    TruncOfInteger(ij.j);
    assert Subcell(c) == Vec2(0.0, 0.0);
    assert g.SnappedIndex(c) == g.IndexFromIJ(ij);
  }

  /** `worldspace_of` inverts `coordinates_at` on the grid's coordinate
      range. */
  lemma {:induction false} WorldspaceRoundTrip<T(0)>(g: Array2<T>, c: Vec2)
    requires g.Valid() && 0.0 <= c.x <= (g.sx - 1) as real && 0.0 <= c.y <= (g.sy - 1) as real
    ensures g.CoordinatesAt(g.WorldspaceOf(c)) == c
  {
    var w := g.WorldspaceOf(c);
    AxisRoundTrip(c.x, g.offsetX, g.h, g.sx, w.x);
    AxisRoundTrip(c.y, g.offsetY, g.h, g.sy, w.y);
  }

  /** `wp_from_index(k)` is the world position of cell k: mapped back by
      `coordinates_at` it gives exactly that cell's coordinates. */
  lemma {:induction false} WpFromIndexRoundTrip<T(0)>(g: Array2<T>, k: int)
    requires g.Valid() && 0 <= k < g.Size()
    ensures var ij := g.IJFromIndex(k);
      g.CoordinatesAt(g.WpFromIndex(k)) == Vec2(ij.i as real, ij.j as real)
  {
    var ij := g.IJFromIndex(k);
    WorldspaceRoundTrip(g, Vec2(ij.i as real, ij.j as real));
  }

  /** Sampling at the world position of a cell returns that cell's value:
      `value_at(worldspace_of(ij)) == (*this)(ij)`. */
  lemma {:induction false} ValueAtCell(g: Array2<real>, ij: Index2)
    requires g.Valid() && g.InBounds(ij)
    ensures ValueAt(g, g.data[..], g.WorldspaceOf(Vec2(ij.i as real, ij.j as real))) == g.At(ij)
  {
    WorldspaceRoundTrip(g, Vec2(ij.i as real, ij.j as real));
    BilerpAtNode(g, g.data[..], ij);
  }

  /** A grid holding one value everywhere samples to that value everywhere. */
  lemma {:induction false} ValueAtConstant(g: Array2<real>, vals: seq<real>, c: real, w: Vec2)
    requires Holds(g, vals) && Constant(vals, c)
    ensures ValueAt(g, vals, w) == c
  {
    var p := g.CoordinatesAt(w);
    var v00 := SampleOfConstant(g, vals, c, p);
    var v10 := SampleOfConstant(g, vals, c, Plus(p, Vec2(1.0, 0.0)));
    var v01 := SampleOfConstant(g, vals, c, Plus(p, Vec2(0.0, 1.0)));
    var v11 := SampleOfConstant(g, vals, c, Plus(p, Vec2(1.0, 1.0)));
    assert Bilerp(g, vals, p) == Lerp2(v00, v10, v01, v11, Subcell(p));
  }

  /** Any snapped read of constant values yields the constant. */
  lemma SampleOfConstant(g: Array2<real>, vals: seq<real>, c: real, q: Vec2) returns (v: real)
    requires Holds(g, vals) && Constant(vals, c)
    ensures v == vals[g.SnappedIndex(q)] && v == c
  {
    v := vals[g.SnappedIndex(q)];
  }

  /** The flat index and the cell index are inverse to each other. */
  lemma {:induction false} IndexRoundTrip<T(0)>(g: Array2<T>, ij: Index2)
    requires g.Valid() && g.InBounds(ij)
    ensures 0 <= g.IndexFromIJ(ij) < g.Size()
    ensures g.IJFromIndex(g.IndexFromIJ(ij)) == ij
  {
    FlatIndexBounds(g.sx, g.sy, ij.i, ij.j);
    DivModUnique(g.sx, ij.i, ij.j);
  }

  /** Distinct cells have distinct flat positions. */
  lemma {:induction false} IndexInjective<T(0)>(g: Array2<T>, a: Index2, b: Index2)
    requires g.Valid() && g.InBounds(a) && g.InBounds(b)
    ensures g.IndexFromIJ(a) == g.IndexFromIJ(b) <==> a == b
  {
    IndexRoundTrip(g, a);
    IndexRoundTrip(g, b);
  }

  /** `coordinates_at((0.1, 0.1))` on a grid with h = 0.1 and offsets -0.5
      is (0.5, 0.5). */
  lemma CoordinatesExample<T(0)>(g: Array2<T>)
    requires g.Valid() && g.sx == 10 && g.sy == 10 && g.h == 0.1
    requires g.offsetX == -0.5 && g.offsetY == -0.5
    ensures g.CoordinatesAt(Vec2(0.1, 0.1)) == Vec2(0.5, 0.5)
  {
  }

  // ---------------------------------------------------------------------
  // The flat accessor's guard

  /** The guard of `operator()(int)` as written: `i >= 0 && i <= sx * sy`. */
  predicate FlatGuardAsWritten<T(0)>(g: Array2<T>, k: int)
  {
    0 <= k <= g.sx * g.sy
  }

  /** The guard as written admits k == sx * sy, one past the end of the
      buffer. */
  lemma FlatGuardAdmitsOnePastEnd<T(0)>(g: Array2<T>)
    requires g.Valid()
    ensures FlatGuardAsWritten(g, g.Size())
    ensures !(g.Size() < g.data.Length)
  {
  }

  /** The corrected guard `0 <= k < sx * sy` (the one `Get` and `WriteFlat`
      require) admits exactly the positions of the buffer, and each of them
      is the position of one cell. */
  lemma {:induction false} FlatGuardCorrected<T(0)>(g: Array2<T>, k: int)
    requires g.Valid()
    ensures 0 <= k < g.Size() <==> 0 <= k < g.data.Length
    ensures 0 <= k < g.Size() ==> g.Get(k) == g.At(g.IJFromIndex(k))
  {
  }

  // ---------------------------------------------------------------------
  // Arithmetic helpers

  lemma ProductPositive(a: int, b: int)
    requires 1 <= a && 1 <= b
    ensures 1 <= a * b
  {
  }

  lemma FlatIndexBounds(sx: int, sy: int, i: int, j: int)
    requires 0 <= i < sx && 0 <= j < sy
    ensures 0 <= i + sx * j < sx * sy
  {
    assert sx * j <= sx * (sy - 1) by {
      assert sx * (sy - 1) - sx * j == sx * (sy - 1 - j);
    }
  }

  lemma FlatIndexInside(sx: int, sy: int, i: int, j: int)
    ensures 0 <= i < sx && 0 <= j < sy ==> 0 <= i + sx * j < sx * sy
  {
    if 0 <= i < sx && 0 <= j < sy {
      FlatIndexBounds(sx, sy, i, j);
    }
  }

  lemma DivModBounds(sx: int, sy: int, k: int)
    requires 1 <= sx && 0 <= k < sx * sy
    ensures 0 <= k % sx < sx && 0 <= k / sx < sy
    ensures k % sx + sx * (k / sx) == k
  {
  }

  lemma DivModUnique(sx: int, i: int, j: int)
    requires 0 <= i < sx && 0 <= j
    ensures (i + sx * j) % sx == i && (i + sx * j) / sx == j
  {
    var k := i + sx * j;
    var q, r := k / sx, k % sx;
    assert sx * q + r == k && 0 <= r < sx;
    assert sx * (q - j) == i - r by {
      assert sx * (q - j) == sx * q - sx * j;
    }
    SmallMultiple(sx, q - j);
  }

  /** The only multiple of sx strictly between -sx and sx is 0. */
  lemma SmallMultiple(sx: int, d: int)
    requires 1 <= sx && -sx < sx * d < sx
    ensures d == 0
  {
  }

  /** Along one axis, the world coordinate (c - offset) h of the grid
      coordinate c maps back to c. */
  lemma AxisRoundTrip(c: real, offset: real, h: real, s: int, w: real)
    requires 1 <= s && h != 0.0 && 0.0 <= c <= (s - 1) as real
    requires w == (c - offset) * h
    ensures ClampCoordinate(w / h + offset, s) == c
  {
    MulDivCancel(c - offset, h);
    assert w / h == c - offset;
  }

  lemma MulDivCancel(a: real, h: real)
    requires h != 0.0
    ensures (a * h) / h == a
  {
  }
}
