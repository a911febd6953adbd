/** The older calculus header: the same upwind gradient as the full kernels
    (`Calculus.UpwindGradientAsWritten`), and four placeholders that return
    zero for every input. */
module CalculusSrc {
  import opened Geometry
  import opened Grids
  import Calculus

  /** `rk3`: a placeholder returning the zero vector. */
  function Rk3(p: Vec2, vel: Vec2 -> Vec2, dt: real): Vec2
  {
    Zero()
  }

  /** `gradient`: a placeholder returning the zero vector. */
  function Gradient(field: Array2<real>, ij: Index2): Vec2
  {
    Zero()
  }

  /** `interpolate_gradient`: a placeholder returning the zero vector. */
  function InterpolateGradient(field: Array2<real>, w: Vec2): Vec2
  {
    Zero()
  }

  /** `divergence`: a placeholder returning zero. */
  function Divergence(field: Array2<real>, ij: Index2): real
  {
    0.0
  }

  /** Each placeholder returns zero whatever it is given. */
  lemma StubsVanish(p: Vec2, vel: Vec2 -> Vec2, dt: real, field: Array2<real>, ij: Index2)
    ensures Rk3(p, vel, dt) == Zero() && Gradient(field, ij) == Zero()
    ensures InterpolateGradient(field, p) == Zero() && Divergence(field, ij) == 0.0
  {
  }

  /** The placeholders lose what the full kernels compute: on a linear field
      with a nonzero slope the full central gradient is nonzero and the
      placeholder's is not. */
  lemma {:induction false} GradientStubDiffers(field: Array2<real>, a: real, b: real, c: real, ij: Index2)
    requires field.Valid() && Calculus.Linear(field, a, b, c) && (a != 0.0 || b != 0.0)
    requires Calculus.Interior(field, ij)
    ensures Calculus.Gradient(field, field.data[..], ij) != Gradient(field, ij)
  {
    Calculus.GradientLinear(field, a, b, c, ij);
    NonzeroQuotient(a, b, field.h);
  }

  /** The same for the interpolated gradient. */
  lemma {:induction false} InterpolateGradientStubDiffers(field: Array2<real>, a: real, b: real, c: real, w: Vec2)
    requires field.Valid() && Calculus.Linear(field, a, b, c) && (a != 0.0 || b != 0.0)
    requires Calculus.CanInterpolateGradient(field, w)
    ensures Calculus.InterpolateGradient(field, field.data[..], w) != InterpolateGradient(field, w)
  {
    Calculus.InterpolateGradientLinear(field, a, b, c, w);
    NonzeroQuotient(a, b, field.h);
  }

  /** In a still velocity field, where forward Euler keeps a particle in
      place, the placeholder `rk3` sends it to the origin. */
  lemma Rk3StubDiffers(p: Vec2, vel: Vec2 -> Vec2, dt: real)
    requires vel(p) == Zero() && p != Zero()
    ensures Calculus.ForwardEuler(p, vel, dt) == p != Rk3(p, vel, dt)
  {
  }

  lemma NonzeroQuotient(a: real, b: real, h: real)
    requires h != 0.0 && (a != 0.0 || b != 0.0)
    ensures Vec2(a / h, b / h) != Zero()
  {
  }
}
