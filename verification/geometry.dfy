/** Two-dimensional vectors over the reals and the handful of glm and libm
    operations the simulator uses.  Single-precision floats are modelled as
    `real`; `sqrt` and `normalize`, which have no exact counterpart here, are
    carried in a `MathLib` value that callers supply, and every random draw
    of `glm::linearRand` is passed in as a number in [0, 1]. */
module Geometry {

  datatype Vec2 = Vec2(x: real, y: real)

  /** glm's `vec3`, of which the older particle constructor keeps x and y. */
  datatype Vec3 = Vec3(x: real, y: real, z: real)

  /** A value that may be missing: an error path of the source (a failed
      lookup, an aborting assert) gives None. */
  datatype Option<T> = None | Some(value: T)

  /** The library functions the model leaves uninterpreted. */
  datatype MathLib = MathLib(sqrt: real -> real, normalize: Vec2 -> Vec2)

  function Zero(): Vec2 { Vec2(0.0, 0.0) }

  function Plus(a: Vec2, b: Vec2): Vec2 { Vec2(a.x + b.x, a.y + b.y) }

  function Minus(a: Vec2, b: Vec2): Vec2 { Vec2(a.x - b.x, a.y - b.y) }

  function Scale(s: real, a: Vec2): Vec2 { Vec2(s * a.x, s * a.y) }

  function Dot(a: Vec2, b: Vec2): real { a.x * b.x + a.y * b.y }

  function Abs(r: real): real { if r < 0.0 then -r else r }

  function Min(a: real, b: real): real { if a < b then a else b }

  function Max(a: real, b: real): real { if a < b then b else a }

  /** glm `clamp(x, lo, hi)`, that is `min(max(x, lo), hi)`. */
  function Clamp(x: real, lo: real, hi: real): (r: real)
    ensures lo <= hi ==> lo <= r <= hi
    ensures lo <= x <= hi ==> r == x
    ensures lo > hi ==> r == hi
  {
    Min(Max(x, lo), hi)
  }

  /** glm `clamp` of a vector against scalar bounds, component by component. */
  function Clamp2(p: Vec2, lo: real, hi: real): (r: Vec2)
    ensures lo <= hi ==> lo <= r.x <= hi && lo <= r.y <= hi
    ensures lo <= p.x <= hi && lo <= p.y <= hi ==> r == p
  {
    Vec2(Clamp(p.x, lo, hi), Clamp(p.y, lo, hi))
  }

  /** The conversion of a float to an int (`ivec2(v)`, `int(f)`), which
      truncates toward zero. */
  function Trunc(r: real): (n: int)
    ensures 0.0 <= r ==> n as real <= r < n as real + 1.0 && 0 <= n
    ensures r < 0.0 ==> n as real - 1.0 < r <= n as real && n <= 0
  {
    if 0.0 <= r then r.Floor else -((-r).Floor)
  }

  /** `glm::linearRand(lo, hi)` for the unit draw `u`. */
  function LinearRand(lo: real, hi: real, u: real): (r: real)
    ensures 0.0 <= u <= 1.0 && lo <= hi ==> lo <= r <= hi
    ensures 0.0 <= u <= 1.0 && hi <= lo ==> hi <= r <= lo
  {
    var d := hi - lo;
    var r := lo + u * d;
    LinearRandBounds(lo, hi, u, d, r);
    r
  }

  lemma LinearRandBounds(lo: real, hi: real, u: real, d: real, r: real)
    requires d == hi - lo && r == lo + u * d
    ensures 0.0 <= u <= 1.0 && lo <= hi ==> lo <= r <= hi
    ensures 0.0 <= u <= 1.0 && hi <= lo ==> hi <= r <= lo
  {
    UnitScaleBounds(u, d);
  }

  /** For a unit weight u, u * d lies between 0 and d. */
  lemma UnitScaleBounds(u: real, d: real)
    ensures 0.0 <= u <= 1.0 && 0.0 <= d ==> 0.0 <= u * d <= d
    ensures 0.0 <= u <= 1.0 && d <= 0.0 ==> d <= u * d <= 0.0
  {
    if 0.0 <= u <= 1.0 {
      if 0.0 <= d {
        MulMonotone(u, 1.0, d);
        MulMonotone(0.0, u, d);
      } else {
        MulMonotone(u, 1.0, -d);
        MulMonotone(0.0, u, -d);
        assert u * (-d) == -(u * d);
      }
    }
  }

  /** Multiplying by a non-negative factor keeps an order. */
  lemma MulMonotone(a: real, b: real, c: real)
    requires a <= b && 0.0 <= c
    ensures a * c <= b * c
  {
    assert b * c - a * c == (b - a) * c;
  }

  /** glm `distance(a, b)`, the square root of the squared length of a - b. */
  function Distance(a: Vec2, b: Vec2, math: MathLib): (d: real)
    ensures SqrtSound(math) ==> 0.0 <= d && (a == b ==> d == 0.0)
  {
    var s := (a.x - b.x) * (a.x - b.x) + (a.y - b.y) * (a.y - b.y);
    DistanceFacts(a, b, s, math);
    math.sqrt(s)
  }

  /** The squared length is non-negative, so a sound square root of it is
      non-negative, and it is zero from a point to itself. */
  lemma DistanceFacts(a: Vec2, b: Vec2, s: real, math: MathLib)
    requires s == (a.x - b.x) * (a.x - b.x) + (a.y - b.y) * (a.y - b.y)
    ensures SqrtSound(math) ==> 0.0 <= math.sqrt(s) && (a == b ==> math.sqrt(s) == 0.0)
  {
    var dx, dy := a.x - b.x, a.y - b.y;
    if dx < 0.0 {
      MulPositive(-dx, -dx);
    }
    if dy < 0.0 {
      MulPositive(-dy, -dy);
    }
    assert 0.0 <= dx * dx && 0.0 <= dy * dy;
    if SqrtSound(math) && a == b {
      assert s == 0.0 * 0.0;
      SqrtOfSquare(math, 0.0);
    }
  }

  /** What the model assumes of `sqrt` where a property needs it: on
      non-negative arguments it gives the non-negative square root. */
  ghost predicate SqrtSound(math: MathLib)
  {
    forall r :: 0.0 <= r ==> 0.0 <= math.sqrt(r) && math.sqrt(r) * math.sqrt(r) == r
  }

  /** A sound square root is below r exactly when its argument is below
      r squared. */
  lemma SqrtBelow(math: MathLib, a: real, r: real)
    requires SqrtSound(math) && 0.0 <= a && 0.0 <= r
    ensures math.sqrt(a) < r <==> a < r * r
  {
    var s := math.sqrt(a);
    assert 0.0 <= s && s * s == a;
    SquaresOrdered(s, r);
  }

  /** Squaring keeps the order of non-negative numbers, strictly. */
  lemma SquaresOrdered(s: real, r: real)
    requires 0.0 <= s && 0.0 <= r
    ensures s < r <==> s * s < r * r
  {
    if s < r {
      var d := r * r - s * s;
      MulPositive(r - s, r + s);
      assert d == (r - s) * (r + s);
      assert 0.0 < d;
    } else {
      var d := s * s - r * r;
      MulMonotone(0.0, s - r, s + r);
      assert d == (s - r) * (s + r);
      assert 0.0 <= d;
    }
  }

  /** A sound square root of a square is the absolute value. */
  lemma SqrtOfSquare(math: MathLib, a: real)
    requires SqrtSound(math)
    ensures math.sqrt(a * a) == Abs(a)
  {
    var b := Abs(a);
    assert b * b == a * a;
    var s := math.sqrt(a * a);
    assert 0.0 <= s && s * s == b * b;
    SquaresOrdered(s, b);
    SquaresOrdered(b, s);
  }

  lemma MulPositive(a: real, b: real)
    requires 0.0 < a && 0.0 < b
    ensures 0.0 < a * b
  {
  }

  lemma TruncOfInteger(n: int)
    ensures Trunc(n as real) == n
  {
  }
}
