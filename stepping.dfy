/**
 * What one call of `step` (Fluid.cs:75-88) does to the six buffers of a
 * fluid, as a function of the fields they hold, and what follows from it:
 * walls hold afterwards, rest is kept, and the density stays in range.
 */
module Stepping {
  import opened Grid
  import opened Boundary
  import opened Relaxation
  import opened Projection
  import opened Advection

  /** The six buffers of a `Fluid`, each read as a field. */
  datatype State = State(s: Field, density: Field, vx: Field, vy: Field, vx0: Field, vy0: Field)

  predicate IsState(n: nat, st: State)
  {
    && IsGrid(n, st.s) && IsGrid(n, st.density) && IsGrid(n, st.vx)
    && IsGrid(n, st.vy) && IsGrid(n, st.vx0) && IsGrid(n, st.vy0)
  }

  /** A state with every buffer zero, as the constructor leaves it. */
  function Still(n: nat): (st: State)
    ensures IsState(n, st)
  {
    State(Zeros(n), Zeros(n), Zeros(n), Zeros(n), Zeros(n), Zeros(n))
  }

  /**
   * The first two calls of `step` (Fluid.cs:76-77): the velocity diffused
   * with coupling `av` into `Vx0`/`Vy0`, paired with `Vx`/`Vy`, which
   * `project` then uses as its pressure and divergence scratch.
   */
  function DiffusedFlow(n: nat, st: State, av: real, k: int): (r: Flow)
    requires n >= 3 && IsState(n, st) && 1.0 + 6.0 * av != 0.0
    ensures IsFlow(n, r)
  {
    Flow(Diffused(n, XVelocity, st.vx0, st.vx, av, k),
         Diffused(n, YVelocity, st.vy0, st.vy, av, k),
         st.vx, st.vy)
  }

  /**
   * The two `advect` calls of `step` (Fluid.cs:81-82): the velocity in
   * `f.vx`/`f.vy` carried along itself into the buffers `f.p`/`f.div`
   * (`Vx`/`Vy`), which then become the velocity and hand `Vx0`/`Vy0` over as
   * the scratch of the second `project`.
   */
  function SelfAdvected(n: nat, f: Flow, dt: real): (r: Flow)
    requires n >= 3 && IsFlow(n, f)
    ensures IsFlow(n, r)
  {
    Flow(Advected(n, XVelocity, f.p, f.vx, f.vx, f.vy, dt),
         Advected(n, YVelocity, f.div, f.vy, f.vx, f.vy, dt),
         f.vx, f.vy)
  }

  /** The velocity half of `step` (Fluid.cs:76-84): diffuse, project, self-advect, project. */
  function VelocityStepped(n: nat, st: State, dt: real, av: real, k: int): (r: Flow)
    requires n >= 3 && IsState(n, st) && 1.0 + 6.0 * av != 0.0
    ensures IsFlow(n, r)
  {
    Projected(n, k, SelfAdvected(n, Projected(n, k, DiffusedFlow(n, st, av, k)), dt))
  }

  /**
   * The six buffers after `step` (Fluid.cs:75-88), with `lin_solve` running
   * `k` iterations, `av` the coupling `diffuse` derives from the viscosity and
   * `ad` the one it derives from the diffusion rate (`DiffusionRate`): the
   * velocity half, then the density diffused into `s` and advected back into
   * `density` along the new velocity.
   */
  function Stepped(n: nat, st: State, dt: real, av: real, ad: real, k: int): (r: State)
    requires n >= 3 && IsState(n, st)
    requires 1.0 + 6.0 * av != 0.0 && 1.0 + 6.0 * ad != 0.0
    ensures IsState(n, r)
  {
    var f := VelocityStepped(n, st, dt, av, k);
    var s := Diffused(n, NoTag, st.s, st.density, ad, k);
    State(s, Advected(n, NoTag, st.density, s, f.vx, f.vy, dt), f.vx, f.vy, f.p, f.div)
  }

  /**
   * After `step` every buffer satisfies a wall relation: the velocity the
   * reflecting one for its component, the density, its diffusion buffer
   * and the two scratch buffers the mirroring one.
   */
  lemma SteppedBoundaries(n: nat, st: State, dt: real, av: real, ad: real, k: int)
    requires n >= 3 && IsState(n, st) && k >= 1
    requires 1.0 + 6.0 * av != 0.0 && 1.0 + 6.0 * ad != 0.0
    ensures BoundaryHolds(n, XVelocity, Stepped(n, st, dt, av, ad, k).vx)
    ensures BoundaryHolds(n, YVelocity, Stepped(n, st, dt, av, ad, k).vy)
    ensures BoundaryHolds(n, NoTag, Stepped(n, st, dt, av, ad, k).vx0)
    ensures BoundaryHolds(n, NoTag, Stepped(n, st, dt, av, ad, k).vy0)
    ensures BoundaryHolds(n, NoTag, Stepped(n, st, dt, av, ad, k).s)
    ensures BoundaryHolds(n, NoTag, Stepped(n, st, dt, av, ad, k).density)
  {
    var f := VelocityStepped(n, st, dt, av, k);
    var s := Diffused(n, NoTag, st.s, st.density, ad, k);
    ProjectedBoundaries(n, k, SelfAdvected(n, Projected(n, k, DiffusedFlow(n, st, av, k)), dt));
    DiffusedBoundary(n, NoTag, st.s, st.density, ad, k);
    AdvectedBoundary(n, NoTag, st.density, s, f.vx, f.vy, dt);
  }

  /** Advecting a still, empty flow along itself leaves it still and empty. */
  lemma SelfAdvectedStill(n: nat, dt: real)
    requires n >= 3
    ensures SelfAdvected(n, Flow(Zeros(n), Zeros(n), Zeros(n), Zeros(n)), dt) == Flow(Zeros(n), Zeros(n), Zeros(n), Zeros(n))
  {
    var z := Zeros(n);
    AdvectedStill(n, XVelocity, z, z, z, z, dt);
    AdvectedStill(n, YVelocity, z, z, z, z, dt);
    WithBoundaryZeroInterior(n, XVelocity, z);
    WithBoundaryZeroInterior(n, YVelocity, z);
  }

  /** The velocity half of `step` leaves a fluid at rest, and its scratch buffers, all zero. */
  lemma VelocitySteppedStill(n: nat, dt: real, av: real, k: int)
    requires n >= 3 && 1.0 + 6.0 * av != 0.0
    ensures VelocityStepped(n, Still(n), dt, av, k) == Flow(Zeros(n), Zeros(n), Zeros(n), Zeros(n))
  {
    var z := Zeros(n);
    LinSolvedZero(n, XVelocity, av, 1.0 + 6.0 * av, k);
    LinSolvedZero(n, YVelocity, av, 1.0 + 6.0 * av, k);
    assert DiffusedFlow(n, Still(n), av, k) == Flow(z, z, z, z);
    ProjectedAtRest(n, k, z, z);
    SelfAdvectedStill(n, dt);
  }

  /** A fluid at rest with no density stays so: `step` maps the all-zero state to itself. */
  lemma SteppedStill(n: nat, dt: real, av: real, ad: real, k: int)
    requires n >= 3 && 1.0 + 6.0 * av != 0.0 && 1.0 + 6.0 * ad != 0.0
    ensures Stepped(n, Still(n), dt, av, ad, k) == Still(n)
  {
    VelocitySteppedStill(n, dt, av, k);
    DiffusedZero(n, ad, k);
    AdvectedZero(n, dt);
  }

  /** Diffusing an empty density into an empty buffer leaves it empty. */
  lemma DiffusedZero(n: nat, ad: real, k: int)
    requires n >= 3 && 1.0 + 6.0 * ad != 0.0
    ensures Diffused(n, NoTag, Zeros(n), Zeros(n), ad, k) == Zeros(n)
  {
    LinSolvedZero(n, NoTag, ad, 1.0 + 6.0 * ad, k);
  }

  /** Advecting an empty density through a fluid at rest leaves it empty. */
  lemma AdvectedZero(n: nat, dt: real)
    requires n >= 3
    ensures Advected(n, NoTag, Zeros(n), Zeros(n), Zeros(n), Zeros(n), dt) == Zeros(n)
  {
    var z := Zeros(n);
    AdvectedStill(n, NoTag, z, z, z, z, dt);
    WithBoundaryZeroInterior(n, NoTag, z);
  }

  /**
   * With a non-negative density coupling, `step` keeps the density and its
   * diffusion buffer within any range `[0, hi]` they started in.
   */
  lemma SteppedDensityInRange(n: nat, st: State, dt: real, av: real, ad: real, k: int, hi: real)
    requires n >= 3 && IsState(n, st) && 1.0 + 6.0 * av != 0.0 && ad >= 0.0 && hi >= 0.0
    requires InRange(n, st.s, 0.0, hi) && InRange(n, st.density, 0.0, hi)
    ensures InRange(n, Stepped(n, st, dt, av, ad, k).s, 0.0, hi)
    ensures InRange(n, Stepped(n, st, dt, av, ad, k).density, 0.0, hi)
  {
    LinSolvedInRange(n, NoTag, st.s, st.density, ad, k, 0.0, hi);
    var r := Stepped(n, st, dt, av, ad, k);
    AdvectedInRange(n, NoTag, st.density, r.s, r.vx, r.vy, dt, 0.0, hi);
  }
}
