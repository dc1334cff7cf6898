# Navier fluid simulation — a Dafny model of the grid solver

This project models the simulation core of a small real-time fluid toy that
implements Jos Stam's "stable fluids" scheme on a fixed `N × N` grid
(`N = 128`), and the interpolation/smoothing helpers that drive its input.

* `Fluid.cs` holds six flat `float[N*N]` buffers (`s`, `density`, `Vx`, `Vy`,
  `Vx0`, `Vy0`) addressed through `IX(x, y)`, which clamps both coordinates to
  the grid and linearises them row-major. One `step` diffuses the velocity
  (`diffuse` → in-place Gauss–Seidel `lin_solve`), projects it
  (`project`: divergence, pressure solve, gradient subtraction), advects it
  along itself (`advect`: semi-Lagrangian backtrace with bilinear sampling),
  projects again, and then diffuses and advects the density. Every routine
  ends with `set_bnd`, which mirrors the interior onto the walls (negating the
  normal velocity component) and averages the corners. `addDensity` /
  `addVelocity` inject at one cell; `fadeD` / `fadeV` decay the fields once
  per frame.
* `TweenFuncts.cs` holds `Linear` (the line through two points) and three
  smoothing helpers, each as a value-returning function and as a `ref`
  overload that updates its argument in place.

## How the model is built

* `Simulation.Fluid` (fluid.dfy) is a class with the six buffers as
  `array<real>` of length `N·N`. Every private routine of the source is a
  method on the arrays it is handed, with nested `for` loops in the source
  order (`j` outer, `i` inner), proved against a pure specification function.
  `step`, `addDensity`, `addVelocity`, `fadeD` and `fadeV` are instance
  methods whose postconditions give the complete new state.
* The specification works on fields, `seq<seq<real>>` with `f[y][x]` the cell
  `IX(x, y)`. `Grid.View(n, a[..])` reads a buffer as a field; `Grid` proves
  that this reading is a bijection (`Grid.ViewInjective`, `Grid.ViewOnto`) and
  how a single store changes it.
* Each routine is specified twice: statement by statement on the flat buffer
  (`...Buf` functions: these are what the loop invariants state), and by what
  it means on fields (`Boundary.WithBoundary`, `Relaxation.LinSolved`,
  `Projection.Projected`, `Advection.Advected`, `Stepping.Stepped`). Link
  lemmas connect the two, and the properties are proved on the field
  functions.
* The specification functions have no rows of their own in the table below;
  the rows of their lemmas and of the methods proved against them stand for
  them. They are `Boundary.WithBoundary` (`set_bnd`, Fluid.cs:325-340),
  `Relaxation.LinSolved` (`lin_solve`, Fluid.cs:228-244), `Relaxation.Diffused` (`diffuse`, Fluid.cs:223-226),
  `Projection.Projected` (`project`, Fluid.cs:246-274), `Advection.Advected`
  (`advect`, Fluid.cs:276-323), `Stepping.Stepped` (`step`, Fluid.cs:75-88),
  `Decay.Fade` (`fadeD`, Fluid.cs:209-214), `Decay.Damp` (`fadeV`,
  Fluid.cs:216-221), and the value overloads `Tween.Linear`
  (TweenFuncts.cs:5-7), `Tween.SmoothToTarget` (TweenFuncts.cs:13-16),
  `Tween.ExponentialSmoothing` (TweenFuncts.cs:22-25) and
  `Tween.LinearSmoothing` (TweenFuncts.cs:31-34).
* The field functions are generic in the grid side `n ≥ 3` and in the number
  of `lin_solve` iterations `k`. The class fixes `N = 128` and `Iter = 2`, as
  the source does.
* `diffuse` is specified through the coupling `a = dt·diff·(N-2)²` that it
  computes (`Relaxation.DiffusionRate`). `Stepping.Stepped` takes the two
  couplings, for the viscosity and for the diffusion rate, as parameters, and
  `Fluid.Step` passes the values it computes.

Behaviour of the source that the model reproduces as written:

* `diffuse` uses `c = 1 + 6a` (the constant of the three-dimensional scheme)
  with the four-neighbour stencil of two dimensions, and `project` likewise
  calls `lin_solve(0, p, div, 1, 6)` (Fluid.cs:261), the constant 6 with
  `a = 1`. As a result a uniform non-zero field is not a solution of the
  system that `diffuse` relaxes towards (`Relaxation.UniformSolvesOnlyZero`),
  and one iteration of `lin_solve` already moves it
  (`Relaxation.UniformNotFixed`). With `c = 1 + 4a` every uniform field would
  be a solution.
* The backtrace clamps to `[0.5, N + 0.5]`, with `N` the full grid side, so the
  sample indices reach `N` and `N + 1`. `IX` folds them back onto the last
  column or row (`Advection.SampleIndices`).
* `step` reuses buffers in changed roles: `project` uses `Vx`/`Vy` as its
  pressure and divergence scratch, and `advect` reads `Vx0` both as the
  advected field and as the velocity. The model requires only that a written
  array is distinct from the arrays read by the same routine.

## Model

| member | source | states |
|---|---|---|
| Grid.Clamp | Fluid.cs:70-71 | `Math.Clamp`: the result lies in `[lo, hi]`, equals `v` inside, and equals the nearer bound outside |
| Grid.IX | Fluid.cs:69-73 | every index `IX` returns lies in `[0, N·N)` |
| Grid.IXClamps | Fluid.cs:69-73 | `IX(x, y) == IX(clamp x, clamp y)`, and on the grid `IX(x, y) == x + y·N` |
| Grid.IXInjective | Fluid.cs:69-73 | on the grid, two cells have the same index if and only if they are the same cell |
| Grid.IXOnto | Fluid.cs:69-73 | every buffer index is `IX` of some grid cell (column `k % N`, row `k / N`) |
| Grid.ViewUpdate | Fluid.cs:92 | storing into the buffer at `IX(x, y)` changes cell `(x, y)` of its field and no other cell |
| Grid.ViewInjective | Fluid.cs:69-73 | two buffers with the same field reading are equal, so a field postcondition fixes the whole buffer |
| Grid.ViewOnto | Fluid.cs:69-73 | every `N × N` field is the reading of some buffer, so together with `ViewInjective` the reading is a bijection |
| Grid.ViewZeros | Fluid.cs:42-49 | a freshly allocated zero buffer reads as the zero field |
| Grid.StoreRowsOverlay | Fluid.cs:247-257 | a full row-major sweep of stores over the interior replaces exactly the interior of the field; used for this loop of `project` and for the store loops at Fluid.cs:263-270 and Fluid.cs:289-320 |
| Grid.StoreUnwritten | Fluid.cs:264-268 | while the sweep is at `(i, j)` that cell still holds its value from before the loop |
| Grid.WriteRowsAt | Fluid.cs:231-241 | after the rows `1..m-1` have been swept, exactly their interior cells hold the new values |
| Boundary.WithBoundaryKeepsInterior | Fluid.cs:325-340 | `set_bnd` leaves every interior cell unchanged |
| Boundary.WithBoundaryHolds | Fluid.cs:325-340 | after `set_bnd(b)`: rows 0 and N-1 copy rows 1 and N-2, negated iff `b == 2`; columns 0 and N-1 copy columns 1 and N-2, negated iff `b == 1`; each corner is the average of its two border neighbours |
| Boundary.WallCell | Fluid.cs:325-340 | in a field satisfying the wall relation, every border cell is determined by the interior |
| Boundary.WithBoundaryUnique | Fluid.cs:325-340 | the output of `set_bnd` is the only field with the same interior that satisfies the wall relation |
| Boundary.WithBoundaryIdempotent | Fluid.cs:325-340 | a second `set_bnd` with the same tag changes nothing |
| Boundary.WithBoundaryFixes | Fluid.cs:325-340 | a field already in wall relation is left unchanged |
| Boundary.WithBoundaryUniform | Fluid.cs:325-340 | with tag 0, a field with a uniform interior becomes uniform |
| Boundary.WithBoundaryZeroInterior | Fluid.cs:325-340 | a field with a zero interior becomes zero everywhere, whatever the tag |
| Boundary.WithBoundaryInteriorOnly | Fluid.cs:325-340 | `set_bnd` reads only the interior: fields that agree there give equal results |
| Boundary.WithBoundaryInRange | Fluid.cs:325-340 | `set_bnd` keeps a field inside `[lo, hi]` (for velocity tags, in a symmetric range) |
| Boundary.RowsPassAt | Fluid.cs:326-329 | after the first loop reaches column `i`, the top and bottom cells of columns `1..i-1` hold the (possibly negated) copies and every other cell is unchanged |
| Boundary.ColsPassAt | Fluid.cs:331-334 | after the second loop reaches row `j`, the left and right cells of rows `1..j-1` hold the (possibly negated) copies and every other cell is unchanged |
| Boundary.CornersPassAt | Fluid.cs:336-339 | the corner assignments change only the four corners, each to the average of its two neighbours |
| Boundary.SetBndPassesCorrect | Fluid.cs:325-340 | running the statements of `set_bnd` in order yields `WithBoundary` |
| Boundary.SetBndBufView | Fluid.cs:325-340 | running `set_bnd` on the flat buffer through `IX` yields the buffer whose field is `WithBoundary` |
| Relaxation.SweepOutside | Fluid.cs:231-241 | a sweep that has reached row `m` has changed no cell outside the interior rows `1..m-1` |
| Relaxation.SweepKeepsBorder | Fluid.cs:231-241 | the sweeps of `lin_solve` write only interior cells; the border changes only through `set_bnd` |
| Relaxation.SolvesRelaxed | Fluid.cs:233-239 | in a solution of the linear system each interior cell equals its relaxed value |
| Relaxation.SweepFixes | Fluid.cs:231-241 | a sweep leaves a solution of the system unchanged |
| Relaxation.LinSolvedFixpoint | Fluid.cs:228-244 | a solution of the system that also satisfies the wall relation is a fixed point of `lin_solve` |
| Relaxation.LinSolvedBoundary | Fluid.cs:228-244 | with at least one iteration, the result of `lin_solve` satisfies the wall relation for `b` |
| Relaxation.DiffusedBoundary | Fluid.cs:223-226 | with at least one iteration, the result of `diffuse` satisfies the wall relation for `b` |
| Relaxation.LinSolvedUncoupled | Fluid.cs:228-244 | with `a = 0` and `c = 1`, `lin_solve` copies the interior of `x0` and imposes the walls |
| Relaxation.DiffusedWithoutDiffusion | Fluid.cs:223-226 | with `dt·diff = 0`, `diffuse` makes `x` the walled copy of `x0` |
| Relaxation.RelaxedAtInRange | Fluid.cs:233-239 | with `a ≥ 0` and `c = 1 + 6a`, a relaxed value stays in any range `[lo, hi]` containing 0 that its inputs lie in |
| Relaxation.SweepInRange | Fluid.cs:231-241 | a sweep keeps the field within such a range |
| Relaxation.LinSolvedInRange | Fluid.cs:228-244 | `lin_solve` with `c = 1 + 6a` and `a ≥ 0` keeps the field within such a range (symmetric for velocity tags) |
| Relaxation.DiffusedInRange | Fluid.cs:223-226 | with `dt·diff ≥ 0` the coupling is non-negative and `diffuse` keeps the field within such a range (symmetric for velocity tags) |
| Relaxation.LinSolvedZero | Fluid.cs:228-244 | a zero field with a zero right-hand side stays zero |
| Relaxation.UniformSolvesOnlyZero | Fluid.cs:224-225 | with `c = 1 + 6a` and `a > 0`, a uniform field solves the four-neighbour system if and only if it is zero |
| Relaxation.UniformNotFixed | Fluid.cs:224-241 | with `c = 1 + 6a`, `a > 0` and `v ≠ 0`, one sweep and one iteration of `lin_solve` both change the uniform field of value `v` |
| Relaxation.RelaxedBufView | Fluid.cs:233-239 | the value stored at `IX(i, j)`, read from the buffers through `IX`, is the relaxed value of the field |
| Relaxation.SweepBufView | Fluid.cs:231-241 | the in-place sweep over the buffer, row-major with `i` innermost, reads as the Gauss–Seidel sweep of the field |
| Projection.DivergenceBufView | Fluid.cs:249-254 | the value stored in `div` at `IX(i, j)` is the discrete divergence of the velocity fields at `(i, j)` |
| Projection.XCorrectedBufView | Fluid.cs:265-266 | the value stored in `velocX` at `IX(i, j)` is the velocity less half the x pressure difference times `N` |
| Projection.YCorrectedBufView | Fluid.cs:267-268 | the value stored in `velocY` at `IX(i, j)` is the velocity less half the y pressure difference times `N` |
| Projection.ProjectedBoundaries | Fluid.cs:246-274 | after `project`, `velocX` satisfies the wall relation for tag 1, `velocY` for tag 2, and `p` and `div` for tag 0 |
| Projection.OverlaySameInterior | Fluid.cs:247-257 | overwriting the interior makes the interior's old values irrelevant |
| Projection.ProjectedIgnoresScratch | Fluid.cs:246-274 | whatever `p` and `div` held before `project` does not affect any of its outputs |
| Projection.PressureOfDivergenceFree | Fluid.cs:246-261 | for a divergence-free velocity the divergence buffer and the pressure come out zero |
| Projection.CorrectedByZero | Fluid.cs:263-270 | subtracting the gradient of a zero pressure leaves the interior unchanged |
| Projection.ProjectedDivergenceFree | Fluid.cs:246-274 | `project` leaves a divergence-free velocity unchanged except for its walls, and zeroes `p` and `div` |
| Projection.ProjectedAtRest | Fluid.cs:246-274 | a velocity at rest stays at rest, and the scratch buffers come out zero |
| Advection.Backtraced | Fluid.cs:296-303 | the traced coordinate lies in `[0.5, N + 0.5]`, is unchanged inside that range and is set to the nearer end outside it |
| Advection.Departure | Fluid.cs:291-303 | the departure coordinate `i - dtx·v`, after clamping, lies in `[0.5, N + 0.5]` |
| Advection.FractionBounds | Fluid.cs:305-308 | the weights satisfy `s1 ∈ [0, 1)` and `s0 + s1 = 1` |
| Advection.SampleIndices | Fluid.cs:298-313 | `i0 = floor(x)` lies in `[0, N]` and `i1` in `[1, N + 1]`; off-grid indices are read by `IX` at the last column or row |
| Advection.Convex | Fluid.cs:316-318 | a convex combination of two values in `[lo, hi]` lies in `[lo, hi]` |
| Advection.BilinearWeights | Fluid.cs:316-318 | the source's expression `s0·(t0·d00 + t1·d01) + s1·(t0·d10 + t1·d11)` is the nested linear interpolation `Bilinear` |
| Advection.InterpolatedInRange | Fluid.cs:305-318 | each interpolated value lies between the minimum and maximum of `d0` |
| Advection.InterpolatedUniform | Fluid.cs:305-318 | interpolating a uniform field gives its value |
| Advection.InterpolatedAtCell | Fluid.cs:305-318 | interpolating at the centre of a grid cell gives that cell's value |
| Advection.AdvectedInRange | Fluid.cs:276-323 | `advect` leaves `d` within any range that `d0` lies in (symmetric for velocity tags), whatever `d` held before |
| Advection.AdvectedIgnoresTarget | Fluid.cs:276-323 | what `d` held before `advect` does not affect the result |
| Advection.AdvectedUniform | Fluid.cs:276-323 | a uniform scalar field is transported unchanged by any velocity |
| Advection.AdvectedAtStill | Fluid.cs:291-318 | a cell with zero displacement receives `d0` of the same cell |
| Advection.AdvectedStill | Fluid.cs:276-323 | with `dt = 0`, or with a zero velocity field, `advect` makes `d` the walled copy of `d0` |
| Advection.AdvectedBoundary | Fluid.cs:322 | after `advect`, `d` satisfies the wall relation for `b` |
| Advection.InterpolatedBufView | Fluid.cs:298-318 | the value the loop computes from the buffer through `IX` is the bilinear interpolation of the field |
| Advection.AdvectedBufView | Fluid.cs:289-320 | the value the loop stores at `IX(i, j)` is the advected value of the field at `(i, j)` |
| Decay.FadeCell | Fluid.cs:211 | a faded density cell lies in `[0, 255]` |
| Decay.FadeInRange | Fluid.cs:209-214 | after `fadeD` every density cell lies in `[0, 255]`, and a cell at 0 stays 0 |
| Decay.FadeCellDecreases | Fluid.cs:211 | `fadeD` never increases a cell in `[0, 255]` and strictly decreases a positive one |
| Decay.FadeStepsValue | Fluid.cs:209-214 | after `k` calls of `fadeD` a cell that started at `v ∈ [0, 255]` holds `max(v - 0.05·k, 0)` |
| Decay.FadeStepsEmptyInRange | Fluid.cs:209-214 | 5100 calls of `fadeD` empty any cell in `[0, 255]` |
| Decay.FadeStepsShift | Fluid.cs:209-214 | `k + 1` calls of `fadeD` are one call followed by `k` calls |
| Decay.FadeStepsEmpty | Fluid.cs:209-214 | 5101 calls of `fadeD` empty a cell whatever value it starts from, including values above 255 |
| Decay.DampShrinks | Fluid.cs:216-221 | `fadeV` moves every component towards zero without changing its sign, and zero stays zero |
| Stepping.SteppedBoundaries | Fluid.cs:75-88 | after `step` the velocity satisfies the wall relations for tags 1 and 2, and `density`, `s`, `Vx0`, `Vy0` satisfy the one for tag 0 |
| Stepping.SelfAdvectedStill | Fluid.cs:81-82 | advecting a velocity at rest along itself leaves it at rest |
| Stepping.VelocitySteppedStill | Fluid.cs:76-84 | the velocity half of `step` maps a fluid at rest to a fluid at rest with zero scratch buffers |
| Stepping.DiffusedZero | Fluid.cs:86 | diffusing a zero density into a zero buffer gives zero |
| Stepping.AdvectedZero | Fluid.cs:87 | advecting a zero density through a fluid at rest gives zero |
| Stepping.SteppedStill | Fluid.cs:75-88 | when every buffer starts at zero, every buffer is still zero after `step` |
| Stepping.SteppedDensityInRange | Fluid.cs:75-88 | with a non-negative diffusion coupling, `step` keeps `density` and `s` within any range `[0, hi]` they start in |
| Simulation.Fluid.constructor | Fluid.cs:36-49 | six fresh, distinct zero buffers of `N·N` cells, and the parameters stored |
| Simulation.Fluid.SetBndRows | Fluid.cs:326-329 | the first loop of `set_bnd` on the array is the statement-by-statement buffer function |
| Simulation.Fluid.SetBndCols | Fluid.cs:331-334 | the second loop of `set_bnd` on the array is the statement-by-statement buffer function |
| Simulation.Fluid.SetBndCorners | Fluid.cs:336-339 | the corner assignments on the array are the statement-by-statement buffer function |
| Simulation.Fluid.SetBnd | Fluid.cs:325-340 | the array afterwards reads as `WithBoundary` of its old contents |
| Simulation.Fluid.GaussSeidel | Fluid.cs:231-241 | one in-place sweep over the array reads as the Gauss–Seidel sweep of the field |
| Simulation.Fluid.LinSolve | Fluid.cs:228-244 | the array afterwards reads as `LinSolved` with `Iter` iterations |
| Simulation.Fluid.Diffuse | Fluid.cs:223-226 | the array afterwards reads as `Diffused` with `a = dt·diff·(N-2)²` |
| Simulation.Fluid.DivergenceLoop | Fluid.cs:247-257 | `div` gets the divergence on its interior, `p` gets zero on its interior, and both keep their borders |
| Simulation.Fluid.CorrectionLoop | Fluid.cs:263-270 | both velocity arrays get the pressure correction on their interior and keep their borders |
| Simulation.Fluid.SolvePressure | Fluid.cs:247-261 | `div` and `p` afterwards hold the walled divergence and the solved pressure |
| Simulation.Fluid.Correct | Fluid.cs:263-273 | the velocity arrays afterwards hold the corrected velocity with its walls imposed |
| Simulation.Fluid.Project | Fluid.cs:246-274 | the four arrays afterwards read as `Projected` of their old contents |
| Simulation.Fluid.Backtrace | Fluid.cs:291-303 | the computed coordinates are the clamped departure point of cell `(i, j)`, within `[0.5, N + 0.5]` |
| Simulation.Fluid.Interpolate | Fluid.cs:298-318 | the computed value is the bilinear sample of `d0` through `IX` |
| Simulation.Fluid.AdvectLoop | Fluid.cs:289-320 | the interior of `d` receives the advected values and its border is kept |
| Simulation.Fluid.Advect | Fluid.cs:276-323 | the array `d` afterwards reads as `Advected` of its old contents |
| Simulation.Fluid.AddDensity | Fluid.cs:90-93 | exactly `density[IX(x, y)]` grows by `amount`; the other five buffers and all other cells are unchanged |
| Simulation.Fluid.AddVelocity | Fluid.cs:95-99 | exactly `Vx` and `Vy` at `IX(x, y)` grow by the amounts; density and every other cell are unchanged |
| Simulation.Fluid.FadeD | Fluid.cs:209-214 | every density cell becomes `clamp(old - 0.05, 0, 255)`, so all lie in `[0, 255]` |
| Simulation.Fluid.FadeV | Fluid.cs:216-221 | every component of `Vx` and `Vy` is scaled by 0.99 |
| Simulation.Fluid.Step | Fluid.cs:75-88 | the six buffers afterwards read as `Stepped` of their old contents, with the two couplings `diffuse` computes and `Iter` iterations; the lengths stay `N·N` |
| Tween.LinearEndpoints | TweenFuncts.cs:5-7 | `Linear(x0, …) == y0` and `Linear(x1, …) == y1` |
| Tween.LinearBetween | TweenFuncts.cs:5-7 | for `x0 < x1`, `y0 ≤ y1` and `x ∈ [x0, x1]`, the result lies in `[y0, y1]` |
| Tween.LinearInverse | TweenFuncts.cs:5-7 | `Linear` with the axes swapped undoes `Linear` |
| Tween.SmoothToTargetGap | TweenFuncts.cs:13-16 | the remaining distance to the target is multiplied by `1 - 1/scalar` |
| Tween.SmoothToTargetFixed | TweenFuncts.cs:13-16 | with `scalar == 1` the target is reached at once, and the target is a fixed point for any non-zero scalar |
| Tween.SmoothToTargetBetween | TweenFuncts.cs:13-16 | for `scalar ≥ 1` the result lies between `current` and `target` |
| Tween.SmoothedStepsGap | TweenFuncts.cs:13-16 | after `k` calls the distance to the target is the first distance times `(1 - 1/scalar)^k` |
| Tween.ExponentialSmoothingInverse | TweenFuncts.cs:22-25 | `scalar == 1` is the identity, and scaling by `1/scalar` undoes scaling by `scalar` |
| Tween.ExponentialStepsPow | TweenFuncts.cs:22-25 | `k` calls scale by `scalar^k` |
| Tween.LinearSmoothingInverse | TweenFuncts.cs:31-34 | `scalar == 0` is the identity, and moving by `-scalar` undoes moving by `scalar` |
| Tween.LinearStepsSum | TweenFuncts.cs:31-34 | `k` calls move by `k·scalar` |
| Tween.SmoothToTargetRef | TweenFuncts.cs:9-11 | the `ref` overload leaves the variable equal to what the value overload returns, and shrinks the distance to the target by `1 - 1/scalar` |
| Tween.ExponentialSmoothingRef | TweenFuncts.cs:18-20 | the `ref` overload leaves the variable equal to what the value overload returns, and dividing by a non-zero scalar recovers the input |
| Tween.LinearSmoothingRef | TweenFuncts.cs:27-29 | the `ref` overload leaves the variable equal to what the value overload returns, and subtracting `scalar` recovers the input |

## Left out

- Rendering (`renderD`, `renderV`), the vertex arrays, render textures, shaders and sprites of the constructor (Fluid.cs:26-34, 51-66, 101-207): drawing through a foreign graphics library.
- `Game.cs` as a whole: window, event handlers, mouse and keyboard polling, frame timing and the trigonometry of the input. It is the interactive shell around `Fluid` and is not part of this model.
- `TweenFuncts.ColorLerp`: it depends on the graphics library's colour type and on float-to-byte casts.
- Floating point: all arithmetic is on `real`. IEEE rounding, NaN and infinity propagation, and the exact binary values of `0.05f`, `0.99f` and `0.5f` are not modelled. The `(int)` casts of `Math.Floor` results are exact here because the backtraced coordinates are positive.
- Division by zero: `lin_solve` with `c == 0`, `diffuse` with `1 + 6a == 0`, `Linear` with `x1 == x0` and `SmoothToTarget` with `scalar == 0` produce infinities or NaN in floats. Reals cannot represent these, so the model requires the divisor to be non-zero.
- Convergence of `lin_solve` and any reduction of divergence by `project`: with two iterations (Fluid.cs:9) the code promises neither, so the model proves only the exact structural properties.
- The class fixes `N = 128` and `Iter = 2` as the source does; the field functions and their lemmas hold for any `n ≥ 3` and any iteration count.
- Aliasing: each routine requires the arrays it writes to be distinct from the arrays it reads, except that `advect` may read the same array as `d0` and as a velocity, as `step` does. Calls with other aliasing are not modelled.
- The source's `Fluid` is a C# `struct`, so copies of it share the buffer arrays but not the scalar fields. The model is a class; since the scalar fields never change after construction, the difference is not observable in the modelled operations.
- The advection loop's per-cell computation is split into two helper methods, `Backtrace` and `Interpolate`, with the same statements as the loop body.
- Stepping.SteppedDensityInRange: stated for ranges `[0, hi]` only; for velocity buffers, whose wall relation negates, only symmetric ranges are preserved (`Boundary.WithBoundaryInRange`).
