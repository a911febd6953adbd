# gfm2d core, modelled in Dafny

gfm2d is a two-dimensional multi-fluid simulator. Each fluid is a level set `phi` on a
regular grid, with negative values inside the fluid. A particle level set keeps each
interface sharp. This project models the simulator's core:

- the `Array2` grid: a flat row-major buffer, world/grid coordinate maps, and clamped
  bilinear sampling;
- the difference kernels and integrators;
- upwind advection of a level set;
- the particle passes: reseeding, radius adjustment, level-set correction and particle
  advection;
- the simulation object: its grids, fluids and run loop, and the fluid map;
- the velocity field;
- the fluid records;
- the starting level-set constructors, the wall fix-up, and the solid boundaries of
  both versions in the repository (the later one under `lib/`, the earlier one under `src/`);
- the `read_blocks` splitter of the plotting scripts.

Single-precision floats are modelled as `real`. `sqrt` and `normalize` are passed in as
a `MathLib` value. Where a property needs `sqrt`, the lemma assumes
`SqrtSound(math)`: the result is non-negative and squares back to its argument. Every
draw of `glm::linearRand` is a parameter in [0, 1]. An `assert` of the source is a
`requires` of the model. A state-changing function becomes a method that states
the whole new state through a specification function. The lemmas then state what
the source promises about that function.

Files: `geometry.dfy`, `array2.dfy`, `calculus.dfy`, `calculus_src.dfy`,
`velocityfield.dfy`, `fluid.dfy`, `fluid_src.dfy`, `levelset_methods.dfy`,
`particle_reseed.dfy`, `particle_correct.dfy`, `particle_advect.dfy`,
`simulation.dfy`, `levelset_constructors.dfy`, `levelset_constructors_src.dfy`,
`settings.dfy`, `settings_src.dfy`, `read_blocks.dfy`.

## Model

| member | source | states |
|---|---|---|
| Geometry.Clamp | src/particle_levelset_method.hpp:103-106 | `glm::clamp`: the result lies in [lo, hi] when lo <= hi, is x when x is already inside, and is hi when the bounds are crossed |
| Geometry.Clamp2 | src/particle_levelset_method.hpp:42-44 | the componentwise clamp of a position into [lo, hi] on both axes, the identity inside the box |
| Geometry.Trunc | src/array2.hpp:164 | `ivec2(float)` truncates toward zero: n <= r < n + 1 for r >= 0, n - 1 < r <= n for r < 0 |
| Geometry.LinearRand | src/particle_levelset_method.hpp:33-34 | `linearRand(lo, hi)` driven by a unit draw lies between lo and hi, in either order of the bounds |
| Geometry.SqrtBelow | lib/levelset_constructors.hpp:92 | for a sound sqrt, sqrt(a) < r exactly when a < r * r |
| Geometry.SqrtOfSquare | src/particle_levelset_method.hpp:75 | for a sound sqrt, sqrt(a * a) is the absolute value of a |
| Geometry.TruncOfInteger | src/array2.hpp:164 | truncating a whole number gives that number back |
| Grids.Array2.constructor | src/array2.hpp:48-69 | builds an sx x sy grid with the given offsets and cell size, every value cleared to zero |
| Grids.Array2.Copy | src/array2.hpp:16-23 | the copy constructor: same shape, offsets, cell size and values, in a fresh buffer |
| Grids.Array2.Set | src/array2.hpp:72 | `set(val)`: every value becomes val |
| Grids.Array2.Clear | src/array2.hpp:75 | `clear()`: every value becomes the element type's zero |
| Grids.Array2.CopyFrom | src/array2.hpp:16-23 | copy assignment between grids of one shape: the values become the source's |
| Grids.Array2.IJFromIndex | src/array2.hpp:127-132 | `ij_from_index`: the cell of flat index k is in bounds and maps back to k |
| Grids.Array2.Get | src/array2.hpp:78-81 | the flat read `operator()(int)` at a buffer position k returns the value of the cell `ij_from_index(k)` |
| Grids.Array2.WpFromIndex | src/array2.hpp:134-136 | `wp_from_index` is `worldspace_of` of the cell at k; Grids.WpFromIndexRoundTrip states that it maps back to that cell |
| Grids.Array2.Write | src/array2.hpp:85-89 | `operator()(i, j) = x`: only the flat position i + sx j changes, to x |
| Grids.Array2.WriteFlat | src/array2.hpp:78-81 | `operator()(k) = x` with the corrected guard: only position k changes |
| Grids.Array2.CoordinatesAt | src/array2.hpp:98-114 | `coordinates_at`: the grid coordinates lie in [0, sx - 1] x [0, sy - 1] and equal x / h + offset when that is already inside |
| Grids.Array2.SnappedIndex | src/array2.hpp:163-179 | `snapped_access` clamps to a flat index inside the buffer for every position |
| Grids.Array2.SnappedAccess | src/array2.hpp:163-179 | `snapped_access` returns a value held in the buffer for every position |
| Grids.Array2.WorldspaceOf | src/array2.hpp:118-123 | `worldspace_of` scales in-grid coordinates by h after the offset; its round trip through `coordinates_at` is stated by Grids.WorldspaceRoundTrip |
| Grids.Array2.At | src/array2.hpp:85-89 | `operator()(i, j)` on an in-bounds cell returns a value held in the buffer |
| Grids.Array2.IndexFromIJ | src/array2.hpp:158 | `index_from_ij` of an in-bounds cell is a position of the buffer |
| Grids.ClampCoordinate | src/array2.hpp:104-111 | the clamp of one coordinate into [0, s - 1], the identity inside |
| Grids.ClampIndex | src/array2.hpp:167-174 | the clamp of one index into [0, s), the identity inside |
| Grids.Subcell | src/array2.hpp:181-184 | `subcell_coordinates`: the fractional part lies in [0, 1) for non-negative coordinates |
| Grids.Lerp | src/array2.hpp:150-152 | `lerp` returns its first value at f = 0, its second at f = 1, and a common value unchanged |
| Grids.Lerp2 | src/array2.hpp:154-156 | `lerp_2` returns val00 at (0, 0) and a common value unchanged |
| Grids.SeqMax | src/array2.hpp:139 | `max()`: an element of the values, and no value exceeds it |
| Grids.SeqMin | src/array2.hpp:140 | `min()`: an element of the values, and no value is below it |
| Grids.GridMax | src/array2.hpp:139 | the grid's maximum bounds every value and is attained |
| Grids.GridMin | src/array2.hpp:140 | the grid's minimum bounds every value and is attained |
| Grids.InfNorm | src/array2.hpp:141-148 | `infnorm()`: non-negative, at least every magnitude, and 0 or attained by some value |
| Grids.BilerpAtNode | src/array2.hpp:188-196 | bilinear sampling at an integer node returns that node's value |
| Grids.WorldspaceRoundTrip | src/array2.hpp:98-123 | `coordinates_at(worldspace_of(c)) == c` for every in-grid coordinate |
| Grids.WpFromIndexRoundTrip | src/array2.hpp:118-136 | `coordinates_at(wp_from_index(k))` is exactly the coordinates of cell k |
| Grids.ValueAtCell | src/array2.hpp:198-200 | `value_at` at a cell's world position returns that cell's value |
| Grids.ValueAtConstant | src/array2.hpp:198-200 | `value_at` of a constant grid is the constant everywhere |
| Grids.Bilerp | src/array2.hpp:188-196 | bilinear sampling at non-negative coordinates lies between the smallest and the largest value of the grid |
| Grids.ValueAt | src/array2.hpp:198-200 | `value_at` anywhere lies between the smallest and the largest value of the grid |
| Grids.SampleOfConstant | src/array2.hpp:163-179 | a snapped read of a constant grid is the constant |
| Grids.IndexRoundTrip | src/array2.hpp:127-132 | `ij_from_index(index_from_ij(ij)) == ij` for every in-bounds cell |
| Grids.CoordinatesExample | test/test_main.cpp:7-14 | on a 10 x 10 grid with h = 0.1 and offsets -0.5, `coordinates_at((0.1, 0.1))` is (0.5, 0.5) |
| Grids.FlatGuardAdmitsOnePastEnd | src/array2.hpp:79 | the guard as written accepts k = sx sy, which is not an index of the buffer |
| Grids.FlatGuardCorrected | src/array2.hpp:78-81 | the corrected guard accepts exactly the buffer's indices, and the flat read agrees with the (i, j) read |
| Calculus.UpwindGradientAsWritten | lib/calculus.hpp:6-14 | `upwind_gradient` as written is zero outside its band |
| Calculus.UpwindGradient | lib/calculus.hpp:6-14 | the corrected kernel is zero outside the band 1 <= i <= sx - 2, 1 <= j <= sy - 2 |
| Calculus.UpwindGuardAdmitsRowBelow | lib/calculus.hpp:7-11 | the guard as written lets cell (1, 0) with an upward velocity read row -1 |
| Calculus.UpwindGradientCorrected | lib/calculus.hpp:7-14 | with the corrected guard all four neighbours are in the grid, and off row 0 the result equals the one as written |
| Calculus.UpwindConstant | lib/calculus.hpp:6-14 | the upwind gradient of a constant field is zero |
| Calculus.UpwindConstantAsWritten | src/calculus.hpp:8-16 | the kernel as written gives the zero gradient on a constant field wherever its reads stay in the grid, row 0 included |
| Calculus.LinearNeighbours | lib/calculus.hpp:9-12 | on a linear field the four neighbours differ from the cell by the slopes a and b |
| Calculus.UpwindLinear | lib/calculus.hpp:6-14 | in the band, the upwind gradient of a linear field is (a / h, b / h) for every velocity |
| Calculus.UpwindZeroVelocity | lib/calculus.hpp:9-13 | at zero velocity the kernel as written takes forward differences, stays in the grid and contributes nothing to advection |
| Calculus.Rk4Weights | lib/calculus.hpp:22 | the weights (1, 2, 2, 1) / 6 average four equal stages to that stage |
| Calculus.Rk4ConstantIsEuler | lib/calculus.hpp:17-36 | under a constant velocity the code's RK4 equals forward Euler |
| Calculus.Rk4ConstantGridsIsEuler | test/test_calculus.cpp:41-56 | on constant u and v grids RK4 and forward Euler agree |
| Calculus.Rk4 | lib/calculus.hpp:17-31 | the code's RK4 with a zero step returns the position |
| Calculus.ForwardEuler | lib/calculus.hpp:34-36 | forward Euler keeps the position under a zero step or at a point of zero velocity |
| Calculus.IntegratorsZeroStep | lib/calculus.hpp:17-36 | a zero step leaves the position unchanged for both integrators |
| Calculus.GradientLinear | lib/calculus.hpp:39-43 | the central-difference gradient of a linear field is (a / h, b / h) |
| Calculus.Gradient | lib/calculus.hpp:39-43 | each component of the central difference is zero exactly when the two neighbours on that axis are equal |
| Calculus.BilerpVec | lib/calculus.hpp:45-48 | vector bilerp returns v00 at (0, 0) and a common corner value everywhere |
| Calculus.BilerpVecCorners | lib/calculus.hpp:45-48 | vector bilerp returns each corner at that corner and a common value everywhere |
| Calculus.InterpolateGradientLinear | lib/calculus.hpp:52-62 | the interpolated gradient of a linear field is (a / h, b / h) at every admissible position |
| Calculus.InterpolateGradient | lib/calculus.hpp:52-62 | at an integer node the interpolated gradient is that node's central difference |
| CalculusSrc.StubsVanish | src/calculus.hpp:18-30 | the earlier rk3, gradient, interpolate_gradient and divergence return zero for every input |
| CalculusSrc.GradientStubDiffers | src/calculus.hpp:21 | on a non-constant linear field the stub gradient differs from the central difference |
| CalculusSrc.InterpolateGradientStubDiffers | src/calculus.hpp:25-27 | the stub interpolated gradient differs from the real one on a non-constant linear field |
| CalculusSrc.Rk3StubDiffers | src/calculus.hpp:18 | at rest, away from the origin, the stub rk3 does not return the position |
| CalculusSrc.Rk3 | src/calculus.hpp:18 | the stub returns the zero vector (StubsVanish), which is not an integration step (Rk3StubDiffers) |
| CalculusSrc.Divergence | src/calculus.hpp:30 | the stub returns zero for every cell (StubsVanish) |
| CalculusSrc.Gradient | src/calculus.hpp:21 | the stub returns the zero vector (StubsVanish), which differs from the central difference on a sloped field (GradientStubDiffers) |
| CalculusSrc.InterpolateGradient | src/calculus.hpp:25-27 | the stub returns the zero vector (StubsVanish), which differs from the interpolated gradient on a sloped field (InterpolateGradientStubDiffers) |
| VelocityFields.SamplerConstant | lib/velocityfield.hpp:10-12 | constant u and v grids give the velocity (cu, cv) everywhere |
| VelocityFields.ComponentsSeparate | src/simulation.hpp:12-14 | the x component depends only on u and the y component only on v |
| VelocityFields.SamplerAtFaces | lib/velocityfield.hpp:10-12 | at a u face the x component is that face's u; at a v face the y component is that face's v |
| VelocityFields.Sampler | lib/velocityfield.hpp:10-12 | the velocity at every position has its x between the smallest and largest u and its y between the smallest and largest v |
| Fluids.NewParticle | lib/fluid.hpp:16-19 | the particle keeps position, starting phi and radius, and starts valid |
| Fluids.Fluid.constructor | lib/fluid.hpp:35-38 | the fluid keeps its density, has no particles, and a cleared sx x sy phi and count grid |
| Fluids.CountNegative | lib/fluid.hpp:43-44 | the count of negative phi values is 0 exactly when none is negative, and the grid size exactly when all are |
| Fluids.Volume | lib/fluid.hpp:41-45 | the printed volume percentage lies in [0, 100], is 0 when no cell is inside, and is 100 exactly when every cell is inside |
| Fluids.PercentBounds | lib/fluid.hpp:42-45 | the truncated percentage of n of size cells lies in [0, 100] and is 100 exactly when n == size |
| FluidsSrc.NewParticle | src/fluid.hpp:15-18 | the particle takes x and y of the vec3 position, keeps starting phi and radius, and starts valid |
| FluidsSrc.NewParticleIgnoresZ | src/fluid.hpp:15-18 | positions that differ only in z give the same particle, the one the later constructor builds |
| FluidsSrc.Fluid.constructor | src/fluid.hpp:36-42 | a cleared sx x sy phi, and a cleared (sx - 1) x (sy - 1) vertex phi and count grid |
| FluidsSrc.VertexGridSize | src/fluid.hpp:40-41 | the vertex grids have sx sy - sx - sy + 1 cells, fewer than phi |
| FluidsSrc.VertexGridShift | src/fluid.hpp:38-41 | vertex node (i, j) sits half a cell up and right of phi's cell (i, j) |
| LevelsetMethods.AdvectPhi | src/levelset_methods.hpp:7-17 | every cell of phi becomes its upwind-advected value under the corrected kernel, computed from the values before the step |
| LevelsetMethods.AdvectIn | src/levelset_methods.hpp:7-16 | advecting in place through a copy sets every cell to the corrected advected value of the old phi |
| LevelsetMethods.AdvectedCopy | src/levelset_methods.hpp:8-15 | the copy `new_phi` holds the corrected advected value of every cell while phi is unchanged |
| LevelsetMethods.AdvectedCell | src/levelset_methods.hpp:11-14 | a cell outside the corrected band, or any cell under a zero step, keeps its value |
| LevelsetMethods.AdvectPhiAsWritten | src/levelset_methods.hpp:7-17 | `advect_phi` with the guard as written: every cell becomes its as-written advected value, computed from the values before the step |
| LevelsetMethods.AdvectInAsWritten | src/levelset_methods.hpp:7-16 | advecting in place with the as-written kernel sets every cell to its advected value of the old phi |
| LevelsetMethods.AdvectedCopyAsWritten | src/levelset_methods.hpp:8-15 | the copy holds the as-written advected value of every cell while phi is unchanged |
| LevelsetMethods.AdvectedCellAsWritten | src/levelset_methods.hpp:11-14 | with the guard of src/calculus.hpp:9 a cell outside the as-written band keeps its value, a zero step keeps every cell, row 0 included, and off row 0 the value agrees with the corrected kernel |
| LevelsetMethods.AdvectedZeroStepAsWritten | src/levelset_methods.hpp:11-14 | with the as-written kernel a zero time step leaves every cell, row 0 included, at its value |
| LevelsetMethods.AdvectedStillFieldAsWritten | src/levelset_methods.hpp:11-14 | under a velocity field that is zero everywhere every cell is advectable with the as-written kernel (its stencil stays in the grid) and keeps its value, for any step |
| LevelsetMethods.StillCellAsWritten | src/levelset_methods.hpp:11-14 | a cell whose sampled velocity is zero has its as-written stencil in the grid and keeps its value |
| LevelsetMethods.AdvectedConstantPhiAsWritten | src/levelset_methods.hpp:11-14 | a constant phi is left unchanged by the as-written advection of any cell whose stencil stays in the grid |
| LevelsetMethods.AdvectedRowZeroDiffers | src/calculus.hpp:9-15 | on cell (1, 0), moving right with a non-zero step and a jump in phi, the source updates the cell while the corrected model keeps it |
| LevelsetMethods.AdvectedOutsideBand | src/levelset_methods.hpp:13-14 | cells outside the corrected upwind band keep their value |
| LevelsetMethods.AdvectedZeroStep | src/levelset_methods.hpp:14 | a zero time step leaves every cell unchanged |
| LevelsetMethods.AdvectedStillField | src/levelset_methods.hpp:12-14 | a zero velocity leaves every cell unchanged |
| LevelsetMethods.ZeroGridsAreStill | src/levelset_methods.hpp:12 | zero u and v grids give zero velocity everywhere |
| LevelsetMethods.AdvectedConstantPhi | src/levelset_methods.hpp:13-14 | a constant phi is unchanged by advection |
| LevelsetMethods.AdvectedLinearPhi | src/levelset_methods.hpp:11-14 | in the band a linear phi moves by -dt (vel . (a / h, b / h)) |
| ParticleReseed.Kept | src/particle_levelset_method.hpp:14-16 | the erase-remove keeps exactly the valid particles: every kept one is valid and every valid one is kept |
| ParticleReseed.PruneParticles | src/particle_levelset_method.hpp:10-16 | the particles become the pruned list: marked by distance to the interface, then the invalid ones erased |
| ParticleReseed.MarkParticles | src/particle_levelset_method.hpp:10-13 | each particle's flag becomes \|phi(position)\| < 3h |
| ParticleReseed.Mark | src/particle_levelset_method.hpp:11-12 | the flag becomes \|phi(position)\| < 3h and nothing else of the particle changes |
| ParticleReseed.Pruned | src/particle_levelset_method.hpp:10-16 | no longer than the input, every survivor valid and within 3h, every particle within 3h kept |
| ParticleReseed.EraseInvalid | src/particle_levelset_method.hpp:14-16 | the particles become the valid ones, in order |
| ParticleReseed.KeptConcat | src/particle_levelset_method.hpp:14-16 | the filter distributes over concatenation |
| ParticleReseed.KeptAllValid | src/particle_levelset_method.hpp:14-16 | a list of valid particles is kept whole |
| ParticleReseed.SurvivorsNearInterface | src/particle_levelset_method.hpp:10-16 | every survivor is valid, within 3h of the interface, and one of the original particles |
| ParticleReseed.NearParticlesSurvive | src/particle_levelset_method.hpp:10-16 | every particle within 3h of the interface survives |
| ParticleReseed.PrunedIdempotent | src/particle_levelset_method.hpp:10-16 | pruning twice equals pruning once |
| ParticleReseed.Voxel | src/particle_levelset_method.hpp:21-22 | the voxel a particle is counted in is a cell of the count grid |
| ParticleReseed.Occupancy | src/particle_levelset_method.hpp:19-23 | no voxel counts more particles than there are |
| ParticleReseed.RecountParticles | src/particle_levelset_method.hpp:19-23 | after clearing, each voxel holds the number of particles that fall in it |
| ParticleReseed.OccupancyTotal | src/particle_levelset_method.hpp:19-23 | the voxel counts add up to the number of particles |
| ParticleReseed.Deficit | src/particle_levelset_method.hpp:29-32 | a cell needs new particles exactly when it passes the seeding test and holds fewer than 16, and then it needs 16 minus its count |
| ParticleReseed.SeedParticle | src/particle_levelset_method.hpp:33-47 | a seeded particle is valid, has radius in [0.1h, 0.5h], lies in the clamp box and starts with the phi sampled at its position |
| ParticleReseed.TopUp | src/particle_levelset_method.hpp:32-49 | cell k's count rises by its deficit, and the batch is that cell's seeds drawn from the next free draws |
| ParticleReseed.SeedParticles | src/particle_levelset_method.hpp:26-50 | each cell's count rises by its deficit, and the particles gain the seeds of every cell in flat order |
| ParticleReseed.SeedCell | src/particle_levelset_method.hpp:32-49 | the `while` tops cell k up to 16 and changes no other count |
| ParticleReseed.ReseedParticles | src/particle_levelset_method.hpp:8-51 | the particles are the pruned survivors plus the seeds, and each count is the survivors' occupancy plus the deficit |
| ParticleReseed.ToppedUp | src/particle_levelset_method.hpp:29-49 | after seeding, an eligible cell holds at least 16 particles and other cells keep their count |
| ParticleReseed.ReseedsWellSeeded | src/particle_levelset_method.hpp:33-47 | every particle added by reseeding is well seeded |
| ParticleReseed.EligibleInBand | src/particle_levelset_method.hpp:29-30 | a cell passing the seeding test is at least two cells from every wall |
| ParticleReseed.Eligible | src/particle_levelset_method.hpp:29-31 | a cell is seeded exactly when it is two cells clear of every wall, open in the solid and within 3h of the interface |
| ParticleReseed.Jittered | src/particle_levelset_method.hpp:33-34 | for a unit draw the seed lies in the box [wp, wp + h] on each axis |
| ParticleReseed.JitterStencilInside | src/particle_levelset_method.hpp:33-40 | the jittered seed position lets `interpolate_gradient` read only grid cells |
| ParticleReseed.JitterCoordinates | src/particle_levelset_method.hpp:33-34 | the jittered position's grid coordinates are the cell plus the draw minus 0.5 |
| ParticleReseed.SeedBoxNonEmpty | src/particle_levelset_method.hpp:42-44 | the clamp box for seeds is not empty when a cell is eligible |
| ParticleCorrection.Resized | src/particle_levelset_method.hpp:55-56 | the radius becomes \|phi\| clamped into [0.1h, 0.5h]; nothing else changes |
| ParticleCorrection.AdjustParticleRadii | src/particle_levelset_method.hpp:53-58 | every particle is resized from phi at its position; the number and order are kept |
| ParticleCorrection.ResizeEach | src/particle_levelset_method.hpp:54-57 | the loop resizes every particle, in order |
| ParticleCorrection.Corner | src/particle_levelset_method.hpp:70-71 | each of the four splat corners is a cell of the grid |
| ParticleCorrection.Escaped | src/particle_levelset_method.hpp:66-68 | a particle is corrected exactly when phi and its starting phi have strictly opposite signs and \|phi\| is at least its radius |
| ParticleCorrection.CornerPhi | src/particle_levelset_method.hpp:69-75 | for a sound sqrt the signed sphere value, times the particle's sign, is at most the radius |
| ParticleCorrection.Merge | src/particle_levelset_method.hpp:87-91 | the merged value is phi+ or phi-, whichever is smaller in magnitude, phi- on a tie |
| ParticleCorrection.CorrectLevelset | src/particle_levelset_method.hpp:61-93 | every cell of phi becomes the merge of phi+ and phi- built from the escaped particles |
| ParticleCorrection.SplatAll | src/particle_levelset_method.hpp:65-84 | after the particle loop phi+ and phi- hold the raised and lowered copies of phi |
| ParticleCorrection.MergeInto | src/particle_levelset_method.hpp:86-92 | every cell of phi becomes the merge of the two buffers |
| ParticleCorrection.Splat | src/particle_levelset_method.hpp:71-83 | one particle raises phi+ (positive) or lowers phi- (negative) at its four corners and leaves the other buffer alone |
| ParticleCorrection.SplatCorner | src/particle_levelset_method.hpp:72-82 | one corner of a particle updates phi+ when the particle is positive and phi- otherwise, leaving the other buffer alone |
| ParticleCorrection.SplattedMonotone | src/particle_levelset_method.hpp:76-82 | phi+ only rises and phi- only falls while corners are splatted |
| ParticleCorrection.SplattedUntouched | src/particle_levelset_method.hpp:71-83 | cells that are not a corner of the particle keep their value |
| ParticleCorrection.SplattedReaches | src/particle_levelset_method.hpp:72-82 | after the splat each corner is at least (phi+) or at most (phi-) the particle's value there |
| ParticleCorrection.BuffersBracketPhi | src/particle_levelset_method.hpp:63-84 | phi- <= phi <= phi+ in every cell |
| ParticleCorrection.BuffersMonotone | src/particle_levelset_method.hpp:65-84 | later particles only raise phi+ and lower phi- |
| ParticleCorrection.BuffersCoverParticles | src/particle_levelset_method.hpp:65-84 | every escaped particle's value is reached at each of its corners in the final buffer |
| ParticleCorrection.CorrectedUntouched | src/particle_levelset_method.hpp:65-92 | a cell no escaped particle touches keeps its phi |
| ParticleCorrection.CorrectedBetween | src/particle_levelset_method.hpp:86-92 | the corrected value lies between phi- and phi+ |
| ParticleCorrection.OneSignedCorrection | src/particle_levelset_method.hpp:65-92 | with only positive escaped particles a non-negative cell keeps its phi (and symmetrically for negative ones) |
| ParticleCorrection.OnlyPositive | src/particle_levelset_method.hpp:76-82 | with only positive escaped particles phi- is phi |
| ParticleCorrection.OnlyNegative | src/particle_levelset_method.hpp:76-82 | with only negative escaped particles phi+ is phi |
| ParticleAdvection.Pushed | src/particle_levelset_method.hpp:99-102 | a particle outside the solid is not pushed |
| ParticleAdvection.Boxed | src/particle_levelset_method.hpp:103-106 | the clamp puts x in [h, (sx - 1)h] and y in [h, (sy - 1)h], collapses a one-cell axis to 0, and keeps an inside position |
| ParticleAdvection.Advected | src/particle_levelset_method.hpp:97-107 | advection changes only the position: radius, starting phi and flag are kept |
| ParticleAdvection.AdvectParticles | src/particle_levelset_method.hpp:95-108 | every particle is moved by RK4, pushed out of the solid and clamped; number and order are kept |
| ParticleAdvection.AdvectEach | src/particle_levelset_method.hpp:97-107 | the loop advects every particle, in order |
| ParticleAdvection.AdvectParticle | src/particle_levelset_method.hpp:98-106 | the loop body computes the advected particle |
| ParticleAdvection.AdvectedAtRest | src/particle_levelset_method.hpp:97-107 | a zero step leaves a particle inside the box and outside the solid where it is |
| ParticleAdvection.AdvectedUniformFlow | src/particle_levelset_method.hpp:97-107 | a constant velocity c moves a particle that stays clear of the solid and the walls by exactly c dt |
| ParticleAdvection.BoxNonEmpty | src/particle_levelset_method.hpp:103-106 | with two or more cells the clamp box [h, (s - 1)h] is not empty |
| ParticleAdvection.RingSolidPushLeavesGrid | src/particle_levelset_method.hpp:99-101 | on the wall-ring solid, a particle at cell (0, 1) is inside the solid and its gradient stencil reads column -1, outside the grid |
| ParticleAdvection.RingSolidNeverPushes | lib/calculus.hpp:52-62 | on the wall-ring solid, wherever the gradient stencil stays in the grid the solid value is 0.5h, so no push happens |
| Simulations.Simulation.constructor | src/simulation.hpp:50 | stores sx, sy and h; the clock is zero, there are no grids and no fluids |
| Simulations.Simulation.Init | src/simulation.hpp:52-63 | u, v, p, solid_phi and fluid_id are fresh, cleared and placed on the staggered layout, and the velocity field refers to u and v |
| Simulations.Simulation.InitWith | src/simulation.hpp:65-72 | stores dimensions, run time and time step, then initialises the grids |
| Simulations.Simulation.AddFluid | src/simulation.hpp:75 | appends one fresh fluid of the given density on the simulation's cells, and nothing else changes |
| Simulations.Simulation.Advance | src/simulation.cpp:11-12 | `advance` changes nothing |
| Simulations.Simulation.Run | src/simulation.cpp:3-9 | a clock below max_t ends exactly at max_t with a positive step no larger than before; a clock already at max_t returns at once with clock and step unchanged, whatever the step; only the clock and the step change |
| Simulations.Simulation.GetFluidIds | src/simulation.cpp:14-28 | each cell's id becomes the lowest-index fluid with the least phi below 99999.9, and is kept when no fluid is below |
| Simulations.NewGrids | src/simulation.hpp:55-60 | the five grids have the shapes, offsets and cell size `init` gives them, all cleared |
| Simulations.PhiValues | src/simulation.cpp:18-19 | the snapshot of every fluid's phi, one per fluid |
| Simulations.PhiColumn | src/simulation.cpp:22 | the values of all fluids at one cell |
| Simulations.VisitFluids | src/simulation.cpp:18-27 | after the outer loop each id is the winner over all fluids |
| Simulations.VisitFluid | src/simulation.cpp:20-26 | one fluid's pass updates the running minimum and the id of every cell |
| Simulations.StepCounts | src/simulation.cpp:4-7 | each iteration of `run` lowers the number of steps left |
| Simulations.WinnerIsArgmin | src/simulation.cpp:22-25 | the strict `<` update picks the least phi below 99999.9 and, on a tie, the earliest fluid; with no fluid below, the id is unchanged |
| Simulations.LeastBelow | src/simulation.cpp:16-25 | the running minimum is at most every fluid's phi and is 99999.9 or one of them |
| LevelsetConstructors.NewFluidConfig | lib/levelset_constructors.hpp:24-32 | a descriptor exists exactly for the shapes circle, plane and none, with the given properties |
| LevelsetConstructors.SphereInside | lib/levelset_constructors.hpp:44-46 | for a non-negative radius the circle's phi is negative exactly when the squared distance to the centre is below the squared radius |
| LevelsetConstructors.ComputePhiSphere | lib/levelset_constructors.hpp:44-46 | for a sound sqrt the circle's phi is at least minus the radius, and exactly that at the centre |
| LevelsetConstructors.PlaneBand | lib/levelset_constructors.hpp:53-57 | the plane's phi is negative exactly when p2 + j < y < p1 + j for the jitter j, never when p1 <= p2, and \|j\| <= \|p3\| |
| LevelsetConstructors.ComputePhiPlane | lib/levelset_constructors.hpp:53-57 | the plane's phi is at least (p2 - p1) / 2, and exactly that on the jittered midline |
| LevelsetConstructors.Signed | lib/levelset_constructors.hpp:71-80 | "none" gives (sx + sy)h whatever negate says; a circle or plane gives its phi up to sign, the phi itself without negate |
| LevelsetConstructors.NegateFlips | lib/levelset_constructors.hpp:80 | negate flips the sign of a circle or plane value |
| LevelsetConstructors.CombinedIsMinimum | lib/levelset_constructors.hpp:62-82 | the cell ends at the minimum of the start value and every descriptor's value, and that minimum is attained |
| LevelsetConstructors.Combined | lib/levelset_constructors.hpp:71-82 | the descriptor loop never raises the cell above its start value |
| LevelsetConstructors.LevelsetAt | lib/levelset_constructors.hpp:60-84 | every constructed cell is at most the fill value (sx + sy)h |
| LevelsetConstructors.NoneKeepsCell | lib/levelset_constructors.hpp:76-81 | a "none" descriptor leaves the cell at its start value |
| LevelsetConstructors.ScaledPositionInside | lib/levelset_constructors.hpp:66-68 | every cell centre scales into the open unit square |
| LevelsetConstructors.ConstructLevelset | lib/levelset_constructors.hpp:60-84 | every cell of phi becomes the combined value of the descriptors at its scaled centre |
| LevelsetConstructors.FillCells | lib/levelset_constructors.hpp:64-83 | the cell loop fills every cell from the start value |
| LevelsetConstructors.CombineCell | lib/levelset_constructors.hpp:71-82 | the descriptor loop writes only cell k, leaving it at the running minimum |
| LevelsetConstructors.DistanceToBounds | lib/levelset_constructors.hpp:87-93 | the distance is non-negative for a sound sqrt |
| LevelsetConstructors.DistanceToNearestCorner | lib/levelset_constructors.hpp:87-93 | `distance_to_bounds` is the distance to the nearest corner of the box, which is no farther than any corner |
| LevelsetConstructors.DistanceToBoundsExamples | test/test_calculus.cpp:60-69 | (0, 0.5) is 0.5 from the unit box, and (0.5, 0.5) is sqrt(0.5² + 0.5²) |
| LevelsetConstructors.WallFixed | lib/levelset_constructors.hpp:103 | the fixed value is at least the old value and at least minus the distance, and is one of them |
| LevelsetConstructors.FixWalls | lib/levelset_constructors.hpp:100-104 | every cell of one phi becomes max(-distance, old value) at its world position |
| LevelsetConstructors.FixLevelsetWalls | lib/levelset_constructors.hpp:97-106 | every fluid's phi is wall-fixed, each from its own old values |
| LevelsetConstructorsSrc.PlaneHeight | src/levelset_constructors.hpp:45 | the plane's phi is within \|p2\| of y - p1: negative below p1 - \|p2\|, positive above p1 + \|p2\|, exactly y - p1 with no jitter |
| LevelsetConstructorsSrc.ComputePhiPlane | src/levelset_constructors.hpp:45 | for a unit draw the plane's phi lies within \|p2\| of y - p1 |
| LevelsetConstructorsSrc.SignedValue | src/levelset_constructors.hpp:59-66 | a circle or plane value up to sign, the value itself without negate |
| LevelsetConstructorsSrc.ConstructLevelset | src/levelset_constructors.hpp:48-68 | succeeds exactly for a circle or a plane, and then sets every cell to the signed value; otherwise phi stays cleared |
| LevelsetConstructorsSrc.FixLevelsetWalls | src/levelset_constructors.hpp:81-90 | every fluid's phi is wall-fixed as in the later version |
| Settings.InitializeBoundaries | lib/settings.hpp:16-26 | solid_phi becomes -0.5 on the ring of cells along the four walls and 0.5h elsewhere |
| Settings.WalledValue | lib/settings.hpp:16-26 | a cell is -0.5 on the wall ring and h / 2 elsewhere, so for h > 0 it is negative exactly on the ring |
| Settings.SolidExactlyOnRing | lib/settings.hpp:17-25 | for h > 0 a cell is solid exactly when it lies on the wall ring, and open cells hold h / 2 |
| Settings.OpenCellsEnclosed | lib/settings.hpp:18-25 | an open cell has all four neighbours in the grid, so open cells exist only when sx, sy >= 3 |
| Settings.WallRows | lib/settings.hpp:18-21 | the row loop sets the bottom and top rows to -0.5 and keeps every other cell |
| Settings.WallColumns | lib/settings.hpp:22-25 | the column loop sets the left and right columns to -0.5 and keeps every other cell |
| Settings.WriteCell | src/array2.hpp:85-88 | writing cell ij changes that cell only |
| SettingsSrc.InitializeBoundaries | src/settings.hpp:18-23 | only the bottom and top rows become -0.5; every other cell keeps its value |
| SettingsSrc.SidesStayOpen | src/settings.hpp:18-23 | on the cleared grid the earlier version is solid exactly on the floor and ceiling, leaves the side columns at 0, and agrees with the later one on the floor and ceiling |
| ReadBlocks.SliceBound | plot/plot.py:30 | Python's slice bound: counts from the end when negative, clamped into [0, n] |
| ReadBlocks.PySlice | plot/plot.py:30 | a slice is no longer than the list |
| ReadBlocks.ReadBlocks | plot/plot.py:14-30 | the loop computes the scan of the lines and returns its slice [i, j + 1], or fails where the scan fails |
| ReadBlocks.Step | plot/plot.py:20-29 | one line adds at most one block, resets the separator count exactly on a data line, fails only on a data line with no block, and a failure stays |
| ReadBlocks.Scan | plot/plot.py:19-29 | the loop never makes more blocks than lines |
| ReadBlocks.ScanStaysFailed | plot/movie.py:20-30 | once `blocks[-1]` has raised, the whole read fails |
| ReadBlocks.ScanState | plot/movie.py:15-31 | the read fails exactly when the first line is a data line; otherwise a non-empty file has at least one block, and the counter is zero exactly after a data line |
| ReadBlocks.ScanKeepsData | plot/plot.py:19-29 | the blocks hold exactly the data lines, in order |
| ReadBlocks.ScanCountsRuns | plot/plot.py:21-25 | there is one block per run of separator lines |
| ReadBlocks.BlankLineIsData | plot/plot.py:21 | a blank line read from the file ("\n") is data and a `#` line is a separator |
| ReadBlocks.SliceOfRange | plot/plot.py:30 | for 0 <= i <= j, the result is blocks i through j, cut short at the end of the list |
| ReadBlocks.LeadingBlocks | plot/movie.py:43-44 | `read_blocks(f, 0, n)` keeps the first n + 1 blocks, and j = -1 returns none |

## Left out

- File and console I/O: the JSON configuration, `initialize_simulation`, `print_information`, the data export and everything the plotting scripts draw. The file's lines are a parameter of `ReadBlocks.ReadBlocks`.
- Floating-point rounding, NaN checks and single-precision overflow: floats are reals.
- `sqrt` and `normalize` are passed in as a `MathLib` value. `glm::linearRand` is replaced by unit draws passed in as parameters.
- lib/simulation.hpp is not part of this model. Both versions of `initialize_boundaries` are modelled on the simulation object of src/simulation.hpp.
- The particle passes are modelled over the fluid record of lib/fluid.hpp, whose count grid matches phi cell for cell. The earlier record's count grid is one cell smaller on each axis. Its flat index i then names a different voxel than phi's cell i, so the seeding loop's mix of the two grids is not modelled.
- The iterator of `Array2`, `index_from_ij` on non-integer coordinates, and reading through `operator()(vec2)` with fractional coordinates. The model indexes with integer cells.
- Simulations.Simulation.Init: requires sx, sy >= 1 and h > 0, where the source asserts only that they are non-zero. Negative dimensions give no grid.
- Simulations.Simulation.AddFluid: requires sx, sy >= 2, because the earlier fluid's vertex grids have sx - 1 by sy - 1 cells and `init` rejects a zero dimension.
- Simulations.Simulation.Run: requires a positive time step only when the clock is below max_t. There a step of zero or less never reaches max_t and the source loop does not terminate. The source's loop variable `t` is not declared in src/simulation.cpp. The model uses `time_elapsed`, the only clock of the class.
- Simulations.Simulation.Advance: the source body is empty, and so is the model.
- `cfl`, `add_gravity` and `advect_velocity` are only declared in src/simulation.hpp and have no body to model.
- LevelsetConstructorsSrc.ConstructLevelset: the source's `throw;` with no active exception terminates the program. The model returns false instead, with phi cleared.
- LevelsetConstructors.PlaneBand: the comment at lib/levelset_constructors.hpp:49-50 calls p1 the lower height and p2 the upper one. With the code as written the band is empty when p1 <= p2. The model follows the code.
- LevelsetConstructors.FixWalls: the comment at lib/levelset_constructors.hpp:95-96 says phi becomes no more than minus the wall distance. The code takes `max`, which raises phi to at least minus the distance. The model follows the code.
- LevelsetConstructors.DistanceToBounds: the function returns the distance to the nearest corner of the box, not to the nearest wall. The test at test/test_calculus.cpp:60-69 expects exactly this, so the model keeps it.
- ParticleCorrection.CorrectLevelset and ParticleAdvection.AdvectParticles require what the source asserts inside `operator()(i, j)`: the splat corners, and the gradient stencil of a particle pushed out of the solid, lie inside the grid.
- LevelsetMethods.AdvectPhi: uses the corrected upwind kernel (see Findings), so the cells (i, 0) with 1 <= i <= sx - 2 keep their value where the source updates them. The source's behaviour is `LevelsetMethods.AdvectPhiAsWritten`, and `LevelsetMethods.AdvectedRowZeroDiffers` exhibits a cell where the two differ.
- LevelsetMethods.AdvectPhiAsWritten: requires that the as-written stencil stays in the grid, that is a velocity with y <= 0 on the row-0 cells of the band, which the source asserts inside `operator()(i, j)`.
- ParticleAdvection.AdvectParticles: the push out of the solid (src/particle_levelset_method.hpp:99-101) is unreachable under its requires on the wall-ring solid built by `initialize_boundaries` (`RingSolidNeverPushes`). In the source any particle inside that ring reads the gradient stencil outside the grid (`RingSolidPushLeavesGrid`), so the push is not modelled on the program's own solid.
- Calculus.UpwindGradientAsWritten requires that its reads stay in the grid. The corrected kernel, used by `LevelsetMethods.AdvectPhi`, needs no such requirement.
- ReadBlocks.PySlice: only the length bound is stated on the function itself. The slice rules are proved in `SliceOfRange` and `LeadingBlocks`.

## Findings

| source | as written | input that shows it | evidently intended | confidence | as-written member | corrected member |
|---|---|---|---|---|---|---|
| src/array2.hpp:79 | the flat accessor asserts `i >= 0 && i <= sx * sy` | k = sx * sy passes the assert and reads one past the end of the buffer | `i < sx * sy` | not executed | Grids.FlatGuardAdmitsOnePastEnd | Grids.FlatGuardCorrected |
| lib/calculus.hpp:7 | `upwind_gradient` returns zero only for `ij.y < 0`, so row 0 is in its band; src/calculus.hpp:9 is the same | cell (1, 0) of a 3 x 2 grid with velocity (0, 1) reads phi(1, -1) | `ij.y < 1.0`, matching the x guard | not executed | Calculus.UpwindGuardAdmitsRowBelow | Calculus.UpwindGradientCorrected |
| src/levelset_methods.hpp:13 | `advect_phi` updates the row-0 cells that the guard of src/calculus.hpp:9 lets into the band | cell (1, 0) of a 3 x 2 grid, velocity (1, 0), a non-zero step and phi(1, 0) != phi(0, 0): the cell changes | the wall row keeps its value, as the wall columns do | not executed | LevelsetMethods.AdvectedRowZeroDiffers | LevelsetMethods.AdvectedOutsideBand |
