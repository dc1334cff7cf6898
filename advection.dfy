/**
 * Semi-Lagrangian advection `advect(b, d, d0, velocX, velocY, dt)`
 * (Fluid.cs:276-323). For every interior cell the departure point is traced
 * back along the velocity over `dt·(N-2)` cells, clamped to `[0.5, N+0.5]`,
 * and `d0` is interpolated bilinearly between the four cells around it
 * (read through `IX`, so cells past the border read the border). The result
 * goes to the interior of `d`, which then receives `set_bnd(b)`.
 */
module Advection {
  import opened Grid
  import opened Boundary

  /** The two clamping `if`s of the source: a traced coordinate is kept in `[0.5, n + 0.5]`. */
  function Backtraced(n: nat, v: real): (r: real)
    ensures 0.5 <= r <= n as real + 0.5
    ensures 0.5 <= v <= n as real + 0.5 ==> r == v
    ensures v < 0.5 ==> r == 0.5
    ensures v > n as real + 0.5 ==> r == n as real + 0.5
  {
    var c := if v < 0.5 then 0.5 else v;
    if c > n as real + 0.5 then n as real + 0.5 else c
  }

  /** The traced coordinate of the cell at `pos` moving at `v`, `step` cells per unit velocity. */
  function Departure(n: nat, pos: int, step: real, v: real): (r: real)
    ensures 0.5 <= r <= n as real + 0.5
  {
    Backtraced(n, pos as real - step * v)
  }

  /** The cell `(i, j)` of `d0` read through `IX`: coordinates clamped to the grid. */
  function Sample(n: nat, d0: Field, i: int, j: int): real
    requires n >= 1 && IsGrid(n, d0)
  {
    d0[Clamp(j, 0, n - 1)][Clamp(i, 0, n - 1)]
  }

  /** The weights of the source for a coordinate `x`: `s1 = x - floor(x)` and `s0 = 1 - s1`. */
  function Fraction(x: real): real
  {
    x - x.Floor as real
  }

  /** Linear interpolation weights lie in `[0, 1]` and sum to one. */
  lemma FractionBounds(x: real)
    ensures 0.0 <= Fraction(x) < 1.0
    ensures (1.0 - Fraction(x)) + Fraction(x) == 1.0
  {
  }

  /**
   * The four sample indices of a traced coordinate `x` in `[0.5, n + 0.5]`:
   * `i0 = floor(x)` lies in `[0, n]` and `i1 = i0 + 1` in `[1, n + 1]`; only
   * `i0 = n` and `i1 ∈ {n, n + 1}` fall outside the grid, and `IX` reads the
   * last column or row for them.
   */
  lemma SampleIndices(n: nat, x: real)
    requires n >= 1 && 0.5 <= x <= n as real + 0.5
    ensures 0 <= x.Floor <= n && 1 <= x.Floor + 1 <= n + 1
    ensures x.Floor < n ==> Clamp(x.Floor, 0, n - 1) == x.Floor
    ensures x.Floor + 1 < n ==> Clamp(x.Floor + 1, 0, n - 1) == x.Floor + 1
    ensures x.Floor >= n ==> Clamp(x.Floor, 0, n - 1) == n - 1
    ensures x.Floor + 1 >= n ==> Clamp(x.Floor + 1, 0, n - 1) == n - 1
  {
  }

  /** Linear interpolation from `a` (weight `1 - w`) to `c` (weight `w`). */
  function Mix(w: real, a: real, c: real): real
  {
    (1.0 - w) * a + w * c
  }

  /**
   * Bilinear interpolation of `d0` at the point `(x, y)`: with `s1`, `t1`
   * the fractional parts of `x`, `y` and `s0 = 1 - s1`, `t0 = 1 - t1`, the
   * store of the source is `s0·(t0·d00 + t1·d01) + s1·(t0·d10 + t1·d11)`.
   */
  function Interpolated(n: nat, d0: Field, x: real, y: real): real
    requires n >= 1 && IsGrid(n, d0)
  {
    var i0, j0 := x.Floor, y.Floor;
    var s1, t1 := Fraction(x), Fraction(y);
    Mix(s1, Mix(t1, Sample(n, d0, i0, j0), Sample(n, d0, i0, j0 + 1)),
            Mix(t1, Sample(n, d0, i0 + 1, j0), Sample(n, d0, i0 + 1, j0 + 1)))
  }

  /** The time step in cells per unit velocity, `dt·(N-2)` (`dtx` and `dty` of the source). */
  function CellStep(n: nat, dt: real): real
  {
    dt * (n - 2) as real
  }

  /** The value `advect` stores at interior cell `(i, j)`. */
  function AdvectedAt(n: nat, d0: Field, vx: Field, vy: Field, dt: real, i: int, j: int): real
    requires IsGrid(n, d0) && IsGrid(n, vx) && IsGrid(n, vy) && Interior(n, i, j)
  {
    var x := Departure(n, i, CellStep(n, dt), vx[j][i]);
    var y := Departure(n, j, CellStep(n, dt), vy[j][i]);
    Interpolated(n, d0, x, y)
  }

  /** The values of the loop for every interior cell (zero elsewhere, never stored). */
  function AdvectField(n: nat, d0: Field, vx: Field, vy: Field, dt: real): (r: Field)
    requires IsGrid(n, d0) && IsGrid(n, vx) && IsGrid(n, vy)
    ensures IsGrid(n, r)
  {
    seq(n, j requires 0 <= j < n => seq(n, i requires 0 <= i < n =>
      if Interior(n, i, j) then AdvectedAt(n, d0, vx, vy, dt, i, j) else 0.0))
  }

  /** The field `d` after `advect(b, d, d0, vx, vy, dt)`. */
  function Advected(n: nat, b: int, d: Field, d0: Field, vx: Field, vy: Field, dt: real): (r: Field)
    requires n >= 3 && IsGrid(n, d) && IsGrid(n, d0) && IsGrid(n, vx) && IsGrid(n, vy)
    ensures IsGrid(n, r)
  {
    WithBoundary(n, b, Overlay(n, d, AdvectField(n, d0, vx, vy, dt)))
  }

  /** A convex combination of two values in `[lo, hi]` stays in `[lo, hi]`. */
  lemma Convex(w: real, a: real, c: real, lo: real, hi: real)
    requires 0.0 <= w <= 1.0 && lo <= a <= hi && lo <= c <= hi
    ensures lo <= Mix(w, a, c) <= hi
  {
    if a <= c {
      ConvexOrdered(w, a, c);
    } else {
      ConvexOrdered(1.0 - w, c, a);
      assert Mix(1.0 - w, c, a) == Mix(w, a, c);
    }
  }

  lemma ConvexOrdered(w: real, a: real, c: real)
    requires 0.0 <= w <= 1.0 && a <= c
    ensures a <= Mix(w, a, c) <= c
  {
    var d := c - a;
    assert Mix(w, a, c) == a + w * d;
    assert Mix(w, a, c) == c - (1.0 - w) * d;
    NonNegProduct(w, d);
    NonNegProduct(1.0 - w, d);
  }

  lemma NonNegProduct(w: real, d: real)
    requires 0.0 <= w && 0.0 <= d
    ensures 0.0 <= w * d
  {
  }

  /** Interpolated values lie within the range of `d0`. */
  lemma InterpolatedInRange(n: nat, d0: Field, x: real, y: real, lo: real, hi: real)
    requires n >= 1 && IsGrid(n, d0) && InRange(n, d0, lo, hi)
    ensures lo <= Interpolated(n, d0, x, y) <= hi
  {
    var i0, j0 := x.Floor, y.Floor;
    var s1, t1 := Fraction(x), Fraction(y);
    FractionBounds(x);
    FractionBounds(y);
    var a00, a01 := Sample(n, d0, i0, j0), Sample(n, d0, i0, j0 + 1);
    var a10, a11 := Sample(n, d0, i0 + 1, j0), Sample(n, d0, i0 + 1, j0 + 1);
    Convex(t1, a00, a01, lo, hi);
    Convex(t1, a10, a11, lo, hi);
    Convex(s1, Mix(t1, a00, a01), Mix(t1, a10, a11), lo, hi);
  }

  /** Interpolating a uniform field gives its value, wherever the point lies. */
  lemma InterpolatedUniform(n: nat, x: real, y: real, v: real)
    requires n >= 1
    ensures Interpolated(n, Uniform(n, v), x, y) == v
  {
    var u := Uniform(n, v);
    var s1, t1 := Fraction(x), Fraction(y);
    assert Sample(n, u, x.Floor, y.Floor) == v && Sample(n, u, x.Floor, y.Floor + 1) == v;
    assert Sample(n, u, x.Floor + 1, y.Floor) == v && Sample(n, u, x.Floor + 1, y.Floor + 1) == v;
    assert Mix(t1, v, v) == v;
    assert Mix(s1, v, v) == v;
  }

  /** At a grid point the interpolation reads exactly that cell. */
  lemma InterpolatedAtCell(n: nat, d0: Field, i: int, j: int)
    requires n >= 1 && IsGrid(n, d0) && 0 <= i < n && 0 <= j < n
    ensures Interpolated(n, d0, i as real, j as real) == d0[j][i]
  {
    assert (i as real).Floor == i && (j as real).Floor == j;
    assert Fraction(i as real) == 0.0 && Fraction(j as real) == 0.0;
  }

  /** `advect` keeps every value of `d` within any range `d0` lies in, whatever `d` held. */
  lemma AdvectedInRange(n: nat, b: int, d: Field, d0: Field, vx: Field, vy: Field, dt: real, lo: real, hi: real)
    requires n >= 3 && IsGrid(n, d) && IsGrid(n, d0) && IsGrid(n, vx) && IsGrid(n, vy)
    requires InRange(n, d0, lo, hi) && (b == NoTag || lo == -hi)
    ensures InRange(n, Advected(n, b, d, d0, vx, vy, dt), lo, hi)
  {
    AdvectedIgnoresTarget(n, b, d, d0, d0, vx, vy, dt);
    TransportedInRange(n, b, d0, vx, vy, dt, lo, hi);
  }

  /** The same bound for the target `d0` itself, whose walls are in the range too. */
  lemma TransportedInRange(n: nat, b: int, d0: Field, vx: Field, vy: Field, dt: real, lo: real, hi: real)
    requires n >= 3 && IsGrid(n, d0) && IsGrid(n, vx) && IsGrid(n, vy)
    requires InRange(n, d0, lo, hi) && (b == NoTag || lo == -hi)
    ensures InRange(n, Advected(n, b, d0, d0, vx, vy, dt), lo, hi)
  {
    var o := Overlay(n, d0, AdvectField(n, d0, vx, vy, dt));
    forall y, x | 0 <= y < n && 0 <= x < n
      ensures lo <= o[y][x] <= hi
    {
      if Interior(n, x, y) {
        InterpolatedInRange(n, d0, Departure(n, x, CellStep(n, dt), vx[y][x]),
          Departure(n, y, CellStep(n, dt), vy[y][x]), lo, hi);
      }
    }
    WithBoundaryInRange(n, b, o, lo, hi);
  }

  /** What `d` held before `advect` is irrelevant: it is overwritten. */
  lemma AdvectedIgnoresTarget(n: nat, b: int, d1: Field, d2: Field, d0: Field, vx: Field, vy: Field, dt: real)
    requires n >= 3 && IsGrid(n, d1) && IsGrid(n, d2) && IsGrid(n, d0) && IsGrid(n, vx) && IsGrid(n, vy)
    ensures Advected(n, b, d1, d0, vx, vy, dt) == Advected(n, b, d2, d0, vx, vy, dt)
  {
    var a := AdvectField(n, d0, vx, vy, dt);
    assert SameInterior(n, Overlay(n, d1, a), Overlay(n, d2, a));
    WithBoundaryInteriorOnly(n, b, Overlay(n, d1, a), Overlay(n, d2, a));
  }

  /** A uniform scalar field is transported unchanged by any velocity. */
  lemma AdvectedUniform(n: nat, d: Field, vx: Field, vy: Field, dt: real, v: real)
    requires n >= 3 && IsGrid(n, d) && IsGrid(n, vx) && IsGrid(n, vy)
    ensures Advected(n, NoTag, d, Uniform(n, v), vx, vy, dt) == Uniform(n, v)
  {
    var o := Overlay(n, d, AdvectField(n, Uniform(n, v), vx, vy, dt));
    forall i, j | Interior(n, i, j)
      ensures o[j][i] == v
    {
      InterpolatedUniform(n, Departure(n, i, CellStep(n, dt), vx[j][i]),
        Departure(n, j, CellStep(n, dt), vy[j][i]), v);
    }
    WithBoundaryUniform(n, o, v);
  }

  /** Where the displacement is zero the cell keeps the value of `d0`. */
  lemma AdvectedAtStill(n: nat, d0: Field, vx: Field, vy: Field, dt: real, i: int, j: int)
    requires IsGrid(n, d0) && IsGrid(n, vx) && IsGrid(n, vy) && Interior(n, i, j)
    requires CellStep(n, dt) * vx[j][i] == 0.0 && CellStep(n, dt) * vy[j][i] == 0.0
    ensures AdvectedAt(n, d0, vx, vy, dt, i, j) == d0[j][i]
  {
    assert Departure(n, i, CellStep(n, dt), vx[j][i]) == i as real;
    assert Departure(n, j, CellStep(n, dt), vy[j][i]) == j as real;
    InterpolatedAtCell(n, d0, i, j);
  }

  /** `advect` ends with `set_bnd`, so its result satisfies the wall relation for `b`. */
  lemma AdvectedBoundary(n: nat, b: int, d: Field, d0: Field, vx: Field, vy: Field, dt: real)
    requires n >= 3 && IsGrid(n, d) && IsGrid(n, d0) && IsGrid(n, vx) && IsGrid(n, vy)
    ensures BoundaryHolds(n, b, Advected(n, b, d, d0, vx, vy, dt))
  {
    WithBoundaryHolds(n, b, Overlay(n, d, AdvectField(n, d0, vx, vy, dt)));
  }

  /**
   * With `dt = 0`, or in a fluid at rest, `advect` copies `d0` and imposes
   * the wall relation.
   */
  lemma AdvectedStill(n: nat, b: int, d: Field, d0: Field, vx: Field, vy: Field, dt: real)
    requires n >= 3 && IsGrid(n, d) && IsGrid(n, d0) && IsGrid(n, vx) && IsGrid(n, vy)
    requires dt == 0.0 || (vx == Zeros(n) && vy == Zeros(n))
    ensures Advected(n, b, d, d0, vx, vy, dt) == WithBoundary(n, b, d0)
  {
    var o := Overlay(n, d, AdvectField(n, d0, vx, vy, dt));
    forall i, j | Interior(n, i, j)
      ensures o[j][i] == d0[j][i]
    {
      assert CellStep(n, dt) * vx[j][i] == 0.0 && CellStep(n, dt) * vy[j][i] == 0.0;
      AdvectedAtStill(n, d0, vx, vy, dt, i, j);
    }
    WithBoundaryInteriorOnly(n, b, o, d0);
  }

  /*
   * The store of the loop on the flat buffers, read through `IX`.
   */

  /** The interpolation of the source from its weights `s1`, `t1` and its four samples. */
  function Bilinear(s1: real, t1: real, d00: real, d01: real, d10: real, d11: real): real
  {
    Mix(s1, Mix(t1, d00, d01), Mix(t1, d10, d11))
  }

  /** The source's form `s0·(t0·d00 + t1·d01) + s1·(t0·d10 + t1·d11)` with `s0 = 1 - s1`, `t0 = 1 - t1`. */
  lemma BilinearWeights(s0: real, s1: real, t0: real, t1: real, d00: real, d01: real, d10: real, d11: real)
    requires s0 == 1.0 - s1 && t0 == 1.0 - t1
    ensures s0 * (t0 * d00 + t1 * d01) + s1 * (t0 * d10 + t1 * d11) == Bilinear(s1, t1, d00, d01, d10, d11)
  {
  }

  function InterpolatedBuf(n: nat, u0: seq<real>, x: real, y: real): real
    requires n >= 1 && |u0| == n * n
  {
    var i0, j0 := x.Floor, y.Floor;
    Bilinear(Fraction(x), Fraction(y), u0[IX(n, i0, j0)], u0[IX(n, i0, j0 + 1)], u0[IX(n, i0 + 1, j0)], u0[IX(n, i0 + 1, j0 + 1)])
  }

  function AdvectedBuf(n: nat, u0: seq<real>, uvx: seq<real>, uvy: seq<real>, dtx: real, i: int, j: int): real
    requires n >= 1 && |u0| == n * n && |uvx| == n * n && |uvy| == n * n
  {
    var x := Departure(n, i, dtx, uvx[IX(n, i, j)]);
    var y := Departure(n, j, dtx, uvy[IX(n, i, j)]);
    InterpolatedBuf(n, u0, x, y)
  }

  lemma SampleView(n: nat, u0: seq<real>, i: int, j: int)
    requires n >= 1 && |u0| == n * n
    ensures Sample(n, View(n, u0), i, j) == u0[IX(n, i, j)]
  {
    IXClamps(n, i, j);
  }

  lemma InterpolatedBufView(n: nat, u0: seq<real>, x: real, y: real)
    requires n >= 1 && |u0| == n * n
    ensures InterpolatedBuf(n, u0, x, y) == Interpolated(n, View(n, u0), x, y)
  {
    var i0, j0 := x.Floor, y.Floor;
    SampleView(n, u0, i0, j0);
    SampleView(n, u0, i0, j0 + 1);
    SampleView(n, u0, i0 + 1, j0);
    SampleView(n, u0, i0 + 1, j0 + 1);
  }

  /** The buffer computation of one store reads, through `IX`, as `AdvectedAt`. */
  lemma AdvectedBufView(n: nat, u0: seq<real>, uvx: seq<real>, uvy: seq<real>, dt: real, i: int, j: int)
    requires n >= 3 && |u0| == n * n && |uvx| == n * n && |uvy| == n * n && Interior(n, i, j)
    ensures AdvectedBuf(n, u0, uvx, uvy, CellStep(n, dt), i, j)
         == AdvectField(n, View(n, u0), View(n, uvx), View(n, uvy), dt)[j][i]
  {
    AdvectedBufAt(n, u0, uvx, uvy, dt, i, j);
  }

  lemma AdvectedBufAt(n: nat, u0: seq<real>, uvx: seq<real>, uvy: seq<real>, dt: real, i: int, j: int)
    requires n >= 3 && |u0| == n * n && |uvx| == n * n && |uvy| == n * n && Interior(n, i, j)
    ensures AdvectedBuf(n, u0, uvx, uvy, CellStep(n, dt), i, j)
         == AdvectedAt(n, View(n, u0), View(n, uvx), View(n, uvy), dt, i, j)
  {
    var x := Departure(n, i, CellStep(n, dt), uvx[IX(n, i, j)]);
    var y := Departure(n, j, CellStep(n, dt), uvy[IX(n, i, j)]);
    assert View(n, uvx)[j][i] == uvx[IX(n, i, j)] && View(n, uvy)[j][i] == uvy[IX(n, i, j)];
    assert AdvectedBuf(n, u0, uvx, uvy, CellStep(n, dt), i, j) == InterpolatedBuf(n, u0, x, y);
    AdvectedAtDeparture(n, View(n, u0), View(n, uvx), View(n, uvy), dt, i, j, uvx[IX(n, i, j)], uvy[IX(n, i, j)]);
    InterpolatedBufView(n, u0, x, y);
  }

  lemma AdvectedAtDeparture(n: nat, d0: Field, vx: Field, vy: Field, dt: real, i: int, j: int, u: real, v: real)
    requires IsGrid(n, d0) && IsGrid(n, vx) && IsGrid(n, vy) && Interior(n, i, j) && vx[j][i] == u && vy[j][i] == v
    ensures AdvectedAt(n, d0, vx, vy, dt, i, j)
         == Interpolated(n, d0, Departure(n, i, CellStep(n, dt), u), Departure(n, j, CellStep(n, dt), v))
  {
  }
}
