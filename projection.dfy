/**
 * The pressure projection `project(velocX, velocY, p, div)` (Fluid.cs:246-274).
 * It stores in `div` the central-difference divergence of the velocity,
 * scaled by `-0.5/N`, clears `p`, imposes the scalar wall relation on both,
 * relaxes `p` towards the solution of `6p = div + (sum of its neighbours)`
 * with `lin_solve(0, p, div, 1, 6)`, subtracts
 * `0.5·N` times the pressure gradient from the velocity and finally imposes
 * the velocity wall relations. `p` and `div` are scratch buffers.
 */
module Projection {
  import opened Grid
  import opened Boundary
  import opened Relaxation

  /** The four buffers `project` works on. */
  datatype Flow = Flow(vx: Field, vy: Field, p: Field, div: Field)

  predicate IsFlow(n: nat, f: Flow)
  {
    IsGrid(n, f.vx) && IsGrid(n, f.vy) && IsGrid(n, f.p) && IsGrid(n, f.div)
  }

  /** The value the first loop stores in `div` at interior cell `(i, j)`. */
  function DivergenceAt(n: nat, vx: Field, vy: Field, i: int, j: int): real
    requires IsGrid(n, vx) && IsGrid(n, vy) && Interior(n, i, j)
  {
    -0.5 * (vx[j][i + 1] - vx[j][i - 1] + vy[j + 1][i] - vy[j - 1][i]) / (n as real)
  }

  /** The values of the first loop for every interior cell (zero elsewhere, never stored). */
  function Divergence(n: nat, vx: Field, vy: Field): (r: Field)
    requires IsGrid(n, vx) && IsGrid(n, vy)
    ensures IsGrid(n, r)
  {
    seq(n, j requires 0 <= j < n => seq(n, i requires 0 <= i < n =>
      if Interior(n, i, j) then DivergenceAt(n, vx, vy, i, j) else 0.0))
  }

  /** The velocity has zero discrete divergence at every interior cell. */
  ghost predicate DivergenceFree(n: nat, vx: Field, vy: Field)
    requires IsGrid(n, vx) && IsGrid(n, vy)
  {
    forall i, j | Interior(n, i, j) :: DivergenceAt(n, vx, vy, i, j) == 0.0
  }

  /** A velocity component less half the pressure difference across its cell, scaled by `N`. */
  function Corrected(n: nat, v: real, ahead: real, behind: real): real
  {
    v - 0.5 * (ahead - behind) * (n as real)
  }

  /** The values of the last loop for `velocX`: the x pressure difference subtracted. */
  function XCorrected(n: nat, vx: Field, p: Field): (r: Field)
    requires IsGrid(n, vx) && IsGrid(n, p)
    ensures IsGrid(n, r)
  {
    seq(n, j requires 0 <= j < n => seq(n, i requires 0 <= i < n =>
      if Interior(n, i, j) then Corrected(n, vx[j][i], p[j][i + 1], p[j][i - 1]) else vx[j][i]))
  }

  /** The values of the last loop for `velocY`: the y pressure difference subtracted. */
  function YCorrected(n: nat, vy: Field, p: Field): (r: Field)
    requires IsGrid(n, vy) && IsGrid(n, p)
    ensures IsGrid(n, r)
  {
    seq(n, j requires 0 <= j < n => seq(n, i requires 0 <= i < n =>
      if Interior(n, i, j) then Corrected(n, vy[j][i], p[j + 1][i], p[j - 1][i]) else vy[j][i]))
  }

  /** `div` after the first loop and `set_bnd(0, div)`. */
  function DivergenceField(n: nat, f: Flow): (r: Field)
    requires n >= 3 && IsFlow(n, f)
    ensures IsGrid(n, r)
  {
    WithBoundary(n, NoTag, Overlay(n, f.div, Divergence(n, f.vx, f.vy)))
  }

  /** `p` after the first loop and `set_bnd(0, p)`. */
  function PressureStart(n: nat, f: Flow): (r: Field)
    requires n >= 3 && IsFlow(n, f)
    ensures IsGrid(n, r)
  {
    WithBoundary(n, NoTag, Overlay(n, f.p, Zeros(n)))
  }

  /** `p` after `lin_solve(0, p, div, 1, 6)` with `k` iterations. */
  function Pressure(n: nat, k: int, f: Flow): (r: Field)
    requires n >= 3 && IsFlow(n, f)
    ensures IsGrid(n, r)
  {
    LinSolved(n, NoTag, PressureStart(n, f), DivergenceField(n, f), 1.0, 6.0, k)
  }

  /** The four buffers after `project`, with `lin_solve` running `k` iterations. */
  function Projected(n: nat, k: int, f: Flow): (r: Flow)
    requires n >= 3 && IsFlow(n, f)
    ensures IsFlow(n, r)
  {
    var p := Pressure(n, k, f);
    Flow(WithBoundary(n, XVelocity, Overlay(n, f.vx, XCorrected(n, f.vx, p))),
         WithBoundary(n, YVelocity, Overlay(n, f.vy, YCorrected(n, f.vy, p))),
         p,
         DivergenceField(n, f))
  }

  /**
   * After `project` the velocity satisfies the no-slip wall relations
   * (`x` velocity reflected at the left and right walls, `y` velocity at
   * the top and bottom) and the scratch buffers the scalar one.
   */
  lemma ProjectedBoundaries(n: nat, k: int, f: Flow)
    requires n >= 3 && IsFlow(n, f) && k >= 1
    ensures BoundaryHolds(n, XVelocity, Projected(n, k, f).vx)
    ensures BoundaryHolds(n, YVelocity, Projected(n, k, f).vy)
    ensures BoundaryHolds(n, NoTag, Projected(n, k, f).p)
    ensures BoundaryHolds(n, NoTag, Projected(n, k, f).div)
  {
    var p := Pressure(n, k, f);
    WithBoundaryHolds(n, XVelocity, Overlay(n, f.vx, XCorrected(n, f.vx, p)));
    WithBoundaryHolds(n, YVelocity, Overlay(n, f.vy, YCorrected(n, f.vy, p)));
    LinSolvedBoundary(n, NoTag, PressureStart(n, f), DivergenceField(n, f), 1.0, 6.0, k);
    WithBoundaryHolds(n, NoTag, Overlay(n, f.div, Divergence(n, f.vx, f.vy)));
  }

  /** Overlaying the interior of `v` makes the original interior irrelevant. */
  lemma OverlaySameInterior(n: nat, s: Field, t: Field, v: Field)
    requires n >= 3 && IsGrid(n, s) && IsGrid(n, t) && IsGrid(n, v)
    ensures SameInterior(n, Overlay(n, s, v), Overlay(n, t, v))
  {
  }

  /** `p` and `div` are pure scratch space: what they held before does not matter. */
  lemma ProjectedIgnoresScratch(n: nat, k: int, vx: Field, vy: Field, p1: Field, div1: Field, p2: Field, div2: Field)
    requires n >= 3 && IsFlow(n, Flow(vx, vy, p1, div1)) && IsFlow(n, Flow(vx, vy, p2, div2))
    ensures Projected(n, k, Flow(vx, vy, p1, div1)) == Projected(n, k, Flow(vx, vy, p2, div2))
  {
    var f1, f2 := Flow(vx, vy, p1, div1), Flow(vx, vy, p2, div2);
    OverlaySameInterior(n, div1, div2, Divergence(n, vx, vy));
    WithBoundaryInteriorOnly(n, NoTag, Overlay(n, div1, Divergence(n, vx, vy)), Overlay(n, div2, Divergence(n, vx, vy)));
    OverlaySameInterior(n, p1, p2, Zeros(n));
    WithBoundaryInteriorOnly(n, NoTag, Overlay(n, p1, Zeros(n)), Overlay(n, p2, Zeros(n)));
    assert DivergenceField(n, f1) == DivergenceField(n, f2);
    assert PressureStart(n, f1) == PressureStart(n, f2);
  }

  /** Zero divergence makes the pressure and the divergence buffer zero. */
  lemma PressureOfDivergenceFree(n: nat, k: int, f: Flow)
    requires n >= 3 && IsFlow(n, f) && DivergenceFree(n, f.vx, f.vy)
    ensures DivergenceField(n, f) == Zeros(n) && Pressure(n, k, f) == Zeros(n)
  {
    var o := Overlay(n, f.div, Divergence(n, f.vx, f.vy));
    forall i, j | Interior(n, i, j)
      ensures o[j][i] == 0.0
    {
      assert DivergenceAt(n, f.vx, f.vy, i, j) == 0.0;
    }
    WithBoundaryZeroInterior(n, NoTag, o);
    WithBoundaryZeroInterior(n, NoTag, Overlay(n, f.p, Zeros(n)));
    LinSolvedZero(n, NoTag, 1.0, 6.0, k);
  }

  /** Subtracting the gradient of a zero pressure leaves the interior as it was. */
  lemma CorrectedByZero(n: nat, vx: Field, vy: Field)
    requires n >= 3 && IsGrid(n, vx) && IsGrid(n, vy)
    ensures SameInterior(n, Overlay(n, vx, XCorrected(n, vx, Zeros(n))), vx)
    ensures SameInterior(n, Overlay(n, vy, YCorrected(n, vy, Zeros(n))), vy)
  {
  }

  /**
   * A velocity field that is already divergence free is not corrected:
   * the pressure comes out zero and `project` only imposes the wall
   * relations.
   */
  lemma ProjectedDivergenceFree(n: nat, k: int, f: Flow)
    requires n >= 3 && IsFlow(n, f) && DivergenceFree(n, f.vx, f.vy)
    ensures Projected(n, k, f) == Flow(WithBoundary(n, XVelocity, f.vx), WithBoundary(n, YVelocity, f.vy), Zeros(n), Zeros(n))
  {
    PressureOfDivergenceFree(n, k, f);
    CorrectedByZero(n, f.vx, f.vy);
    WithBoundaryInteriorOnly(n, XVelocity, Overlay(n, f.vx, XCorrected(n, f.vx, Zeros(n))), f.vx);
    WithBoundaryInteriorOnly(n, YVelocity, Overlay(n, f.vy, YCorrected(n, f.vy, Zeros(n))), f.vy);
  }

  /** A fluid at rest stays at rest, and its scratch buffers come out zero. */
  lemma ProjectedAtRest(n: nat, k: int, p: Field, div: Field)
    requires n >= 3 && IsGrid(n, p) && IsGrid(n, div)
    ensures Projected(n, k, Flow(Zeros(n), Zeros(n), p, div)) == Flow(Zeros(n), Zeros(n), Zeros(n), Zeros(n))
  {
    var z := Zeros(n);
    var f := Flow(z, z, p, div);
    forall i, j | Interior(n, i, j)
      ensures DivergenceAt(n, z, z, i, j) == 0.0
    {
      assert z[j][i + 1] == 0.0 && z[j][i - 1] == 0.0 && z[j + 1][i] == 0.0 && z[j - 1][i] == 0.0;
    }
    ProjectedDivergenceFree(n, k, f);
    WithBoundaryZeroInterior(n, XVelocity, z);
    WithBoundaryZeroInterior(n, YVelocity, z);
  }

  /*
   * The stores of the two loops on the flat buffers, read through `IX`.
   */

  /** The value the first loop stores at `IX(i, j)` of `div` (Fluid.cs:249-254). */
  function DivergenceBuf(n: nat, uvx: seq<real>, uvy: seq<real>, i: int, j: int): real
    requires n >= 1 && |uvx| == n * n && |uvy| == n * n
  {
    -0.5 * (uvx[IX(n, i + 1, j)] - uvx[IX(n, i - 1, j)] + uvy[IX(n, i, j + 1)] - uvy[IX(n, i, j - 1)]) / (n as real)
  }

  lemma DivergenceBufView(n: nat, uvx: seq<real>, uvy: seq<real>, i: int, j: int)
    requires n >= 3 && |uvx| == n * n && |uvy| == n * n && Interior(n, i, j)
    ensures DivergenceBuf(n, uvx, uvy, i, j) == Divergence(n, View(n, uvx), View(n, uvy))[j][i]
  {
    var vx, vy := View(n, uvx), View(n, uvy);
    assert vx[j][i + 1] - vx[j][i - 1] + vy[j + 1][i] - vy[j - 1][i]
        == uvx[IX(n, i + 1, j)] - uvx[IX(n, i - 1, j)] + uvy[IX(n, i, j + 1)] - uvy[IX(n, i, j - 1)];
  }

  /** The value the last loop stores at `IX(i, j)` of `velocX` (Fluid.cs:265-266). */
  function XCorrectedBuf(n: nat, uvx: seq<real>, up: seq<real>, i: int, j: int): real
    requires n >= 1 && |uvx| == n * n && |up| == n * n
  {
    Corrected(n, uvx[IX(n, i, j)], up[IX(n, i + 1, j)], up[IX(n, i - 1, j)])
  }

  lemma XCorrectedBufView(n: nat, uvx: seq<real>, up: seq<real>, i: int, j: int)
    requires n >= 3 && |uvx| == n * n && |up| == n * n && Interior(n, i, j)
    ensures XCorrectedBuf(n, uvx, up, i, j) == XCorrected(n, View(n, uvx), View(n, up))[j][i]
  {
    var vx, p := View(n, uvx), View(n, up);
    assert vx[j][i] == uvx[IX(n, i, j)];
    assert p[j][i + 1] == up[IX(n, i + 1, j)] && p[j][i - 1] == up[IX(n, i - 1, j)];
  }

  /** The value the last loop stores at `IX(i, j)` of `velocY` (Fluid.cs:267-268). */
  function YCorrectedBuf(n: nat, uvy: seq<real>, up: seq<real>, i: int, j: int): real
    requires n >= 1 && |uvy| == n * n && |up| == n * n
  {
    Corrected(n, uvy[IX(n, i, j)], up[IX(n, i, j + 1)], up[IX(n, i, j - 1)])
  }

  lemma YCorrectedBufView(n: nat, uvy: seq<real>, up: seq<real>, i: int, j: int)
    requires n >= 3 && |uvy| == n * n && |up| == n * n && Interior(n, i, j)
    ensures YCorrectedBuf(n, uvy, up, i, j) == YCorrected(n, View(n, uvy), View(n, up))[j][i]
  {
    var vy, p := View(n, uvy), View(n, up);
    assert vy[j][i] == uvy[IX(n, i, j)];
    assert p[j + 1][i] == up[IX(n, i, j + 1)] && p[j - 1][i] == up[IX(n, i, j - 1)];
  }
}
