/**
 * The linear solver `lin_solve` (Fluid.cs:228-244) and `diffuse`
 * (Fluid.cs:223-226). Each iteration sweeps the interior row by row, `j`
 * outer and `i` inner, replacing every cell in place by
 * `(x0 + a·(sum of its four neighbours))·(1/c)` — a Gauss–Seidel step, so a
 * cell reads the neighbours already replaced earlier in the same sweep —
 * and then applies `set_bnd`.
 */
module Relaxation {
  import opened Grid
  import opened Boundary

  /** The value a sweep stores in interior cell `(i, j)` of the field `t`. */
  function RelaxedAt(n: nat, t: Field, t0: Field, a: real, cr: real, i: int, j: int): real
    requires IsGrid(n, t) && IsGrid(n, t0) && Interior(n, i, j)
  {
    (t0[j][i] + a * (t[j][i + 1] + t[j][i - 1] + t[j + 1][i] + t[j - 1][i])) * cr
  }

  /** One assignment of the sweep: cell `(i, j)` replaced by its relaxed value. */
  function Relax(n: nat, t: Field, t0: Field, a: real, cr: real, i: int, j: int): (r: Field)
    requires IsGrid(n, t) && IsGrid(n, t0) && Interior(n, i, j)
    ensures IsGrid(n, r)
  {
    Set(t, i, j, RelaxedAt(n, t, t0, a, cr, i, j))
  }

  /** Row `j` of a sweep after the inner loop has relaxed cells `1..m-1`. */
  function SweepRow(n: nat, t: Field, t0: Field, a: real, cr: real, j: int, m: int): (r: Field)
    requires IsGrid(n, t) && IsGrid(n, t0) && 1 <= j <= n - 2 && m <= n - 1
    ensures IsGrid(n, r)
    decreases m
  {
    if m <= 1 then t else Relax(n, SweepRow(n, t, t0, a, cr, j, m - 1), t0, a, cr, m - 1, j)
  }

  /** A sweep after the outer loop has handled rows `1..m-1`. */
  function Sweep(n: nat, t: Field, t0: Field, a: real, cr: real, m: int): (r: Field)
    requires IsGrid(n, t) && IsGrid(n, t0) && m <= n - 1
    ensures IsGrid(n, r)
    decreases m
  {
    if m <= 1 then t else SweepRow(n, Sweep(n, t, t0, a, cr, m - 1), t0, a, cr, m - 1, n - 1)
  }

  /** `lin_solve(b, x, x0, a, c)` run for `k` iterations on a field `t` with right-hand side `t0`. */
  function LinSolved(n: nat, b: int, t: Field, t0: Field, a: real, c: real, k: int): (r: Field)
    requires n >= 3 && IsGrid(n, t) && IsGrid(n, t0) && c != 0.0
    ensures IsGrid(n, r)
    decreases k
  {
    if k <= 0 then t
    else WithBoundary(n, b, Sweep(n, LinSolved(n, b, t, t0, a, c, k - 1), t0, a, 1.0 / c, n - 1))
  }

  /** The coupling `a` that `diffuse` computes from the time step and the diffusion rate. */
  function DiffusionRate(n: nat, dt: real, diff: real): real
  {
    dt * diff * (n - 2) as real * (n - 2) as real
  }

  /**
   * `diffuse(b, x, x0, diff, dt)` for the coupling `a = DiffusionRate(n, dt, diff)`:
   * `lin_solve` with that `a` and `c = 1 + 6a`.
   */
  function Diffused(n: nat, b: int, x: Field, x0: Field, a: real, k: int): (r: Field)
    requires n >= 3 && IsGrid(n, x) && IsGrid(n, x0) && 1.0 + 6.0 * a != 0.0
    ensures IsGrid(n, r)
  {
    LinSolved(n, b, x, x0, a, 1.0 + 6.0 * a, k)
  }

  /** A sweep leaves every cell of row `j` outside `1..m-1` untouched. */
  lemma {:induction false} SweepRowOutside(n: nat, t: Field, t0: Field, a: real, cr: real, j: int, m: int, x: int, y: int)
    requires IsGrid(n, t) && IsGrid(n, t0) && 1 <= j <= n - 2 && m <= n - 1 && 0 <= x < n && 0 <= y < n
    requires !(y == j && 1 <= x < m)
    ensures SweepRow(n, t, t0, a, cr, j, m)[y][x] == t[y][x]
    decreases m
  {
    if m > 1 {
      SweepRowOutside(n, t, t0, a, cr, j, m - 1, x, y);
    }
  }

  /** A sweep that has reached row `m` has changed no cell outside the interior rows `1..m-1`. */
  lemma {:induction false} SweepOutside(n: nat, t: Field, t0: Field, a: real, cr: real, m: int, x: int, y: int)
    requires IsGrid(n, t) && IsGrid(n, t0) && m <= n - 1 && 0 <= x < n && 0 <= y < n
    requires !(Interior(n, x, y) && y < m)
    ensures Sweep(n, t, t0, a, cr, m)[y][x] == t[y][x]
    decreases m
  {
    if m > 1 {
      SweepOutside(n, t, t0, a, cr, m - 1, x, y);
      SweepRowOutside(n, Sweep(n, t, t0, a, cr, m - 1), t0, a, cr, m - 1, n - 1, x, y);
    }
  }

  /** The sweeps write the interior only: the border is as `t` had it. */
  lemma SweepKeepsBorder(n: nat, t: Field, t0: Field, a: real, cr: real, x: int, y: int)
    requires IsGrid(n, t) && IsGrid(n, t0) && n >= 1 && 0 <= x < n && 0 <= y < n && !Interior(n, x, y)
    ensures Sweep(n, t, t0, a, cr, n - 1)[y][x] == t[y][x]
  {
    SweepOutside(n, t, t0, a, cr, n - 1, x, y);
  }

  /** Interior cell `(i, j)` of `t` satisfies `c·t = t0 + a·(sum of its four neighbours)`. */
  predicate BalancedAt(n: nat, t: Field, t0: Field, a: real, c: real, i: int, j: int)
    requires IsGrid(n, t) && IsGrid(n, t0) && Interior(n, i, j)
  {
    c * t[j][i] == t0[j][i] + a * (t[j][i + 1] + t[j][i - 1] + t[j + 1][i] + t[j - 1][i])
  }

  /** `t` solves the discrete system that `lin_solve` relaxes towards. */
  ghost predicate Solves(n: nat, t: Field, t0: Field, a: real, c: real)
    requires IsGrid(n, t) && IsGrid(n, t0)
  {
    forall i, j | Interior(n, i, j) :: BalancedAt(n, t, t0, a, c, i, j)
  }

  lemma SolvesRelaxed(n: nat, t: Field, t0: Field, a: real, c: real, i: int, j: int)
    requires IsGrid(n, t) && IsGrid(n, t0) && c != 0.0 && Solves(n, t, t0, a, c) && Interior(n, i, j)
    ensures RelaxedAt(n, t, t0, a, 1.0 / c, i, j) == t[j][i]
  {
    var rhs := t0[j][i] + a * (t[j][i + 1] + t[j][i - 1] + t[j + 1][i] + t[j - 1][i]);
    assert BalancedAt(n, t, t0, a, c, i, j);
    assert c * t[j][i] == rhs;
    assert rhs * (1.0 / c) == (c * t[j][i]) / c;
  }

  lemma {:induction false} SweepRowFixes(n: nat, t: Field, t0: Field, a: real, c: real, j: int, m: int)
    requires IsGrid(n, t) && IsGrid(n, t0) && c != 0.0 && Solves(n, t, t0, a, c) && 1 <= j <= n - 2 && m <= n - 1
    ensures SweepRow(n, t, t0, a, 1.0 / c, j, m) == t
    decreases m
  {
    if m > 1 {
      SweepRowFixes(n, t, t0, a, c, j, m - 1);
      SolvesRelaxed(n, t, t0, a, c, m - 1, j);
      SetSame(n, t, m - 1, j);
    }
  }

  lemma {:induction false} SweepFixes(n: nat, t: Field, t0: Field, a: real, c: real, m: int)
    requires IsGrid(n, t) && IsGrid(n, t0) && c != 0.0 && Solves(n, t, t0, a, c) && m <= n - 1
    ensures Sweep(n, t, t0, a, 1.0 / c, m) == t
    decreases m
  {
    if m > 1 {
      SweepFixes(n, t, t0, a, c, m - 1);
      SweepRowFixes(n, t, t0, a, c, m - 1, n - 1);
    }
  }

  /**
   * A solution of the discrete system that already satisfies the wall
   * relation is a fixed point of `lin_solve`, for any number of iterations.
   */
  lemma {:induction false} LinSolvedFixpoint(n: nat, b: int, t: Field, t0: Field, a: real, c: real, k: int)
    requires n >= 3 && IsGrid(n, t) && IsGrid(n, t0) && c != 0.0
    requires Solves(n, t, t0, a, c) && BoundaryHolds(n, b, t)
    ensures LinSolved(n, b, t, t0, a, c, k) == t
    decreases k, 1
  {
    if k > 0 {
      LinSolvedFixpointStep(n, b, t, t0, a, c, k);
    }
  }

  lemma {:induction false} LinSolvedFixpointStep(n: nat, b: int, t: Field, t0: Field, a: real, c: real, k: int)
    requires n >= 3 && IsGrid(n, t) && IsGrid(n, t0) && c != 0.0 && k > 0
    requires Solves(n, t, t0, a, c) && BoundaryHolds(n, b, t)
    ensures LinSolved(n, b, t, t0, a, c, k) == t
    decreases k, 0
  {
    LinSolvedFixpoint(n, b, t, t0, a, c, k - 1);
    SweepFixes(n, t, t0, a, c, n - 1);
    WithBoundaryFixes(n, b, t);
  }

  /** After at least one iteration the result satisfies the wall relation for `b`. */
  lemma LinSolvedBoundary(n: nat, b: int, t: Field, t0: Field, a: real, c: real, k: int)
    requires n >= 3 && IsGrid(n, t) && IsGrid(n, t0) && c != 0.0 && k >= 1
    ensures BoundaryHolds(n, b, LinSolved(n, b, t, t0, a, c, k))
  {
    WithBoundaryHolds(n, b, Sweep(n, LinSolved(n, b, t, t0, a, c, k - 1), t0, a, 1.0 / c, n - 1));
  }

  /** `diffuse` ends with `set_bnd`: after at least one iteration its result satisfies the wall relation for `b`. */
  lemma DiffusedBoundary(n: nat, b: int, x: Field, x0: Field, a: real, k: int)
    requires n >= 3 && IsGrid(n, x) && IsGrid(n, x0) && 1.0 + 6.0 * a != 0.0 && k >= 1
    ensures BoundaryHolds(n, b, Diffused(n, b, x, x0, a, k))
  {
    LinSolvedBoundary(n, b, x, x0, a, 1.0 + 6.0 * a, k);
  }

  /** Without coupling (`a = 0`, `c = 1`) a row of the sweep copies `t0`. */
  lemma {:induction false} SweepRowUncoupled(n: nat, t: Field, t0: Field, j: int, m: int)
    requires IsGrid(n, t) && IsGrid(n, t0) && 1 <= j <= n - 2 && m <= n - 1
    ensures SweepRow(n, t, t0, 0.0, 1.0, j, m) == WriteRow(n, t, t0, j, m)
    decreases m
  {
    if m > 1 {
      SweepRowUncoupled(n, t, t0, j, m - 1);
    }
  }

  lemma {:induction false} SweepUncoupled(n: nat, t: Field, t0: Field, m: int)
    requires n >= 1 && IsGrid(n, t) && IsGrid(n, t0) && m <= n - 1
    ensures Sweep(n, t, t0, 0.0, 1.0, m) == WriteRows(n, t, t0, m)
    decreases m
  {
    if m > 1 {
      SweepUncoupled(n, t, t0, m - 1);
      SweepRowUncoupled(n, WriteRows(n, t, t0, m - 1), t0, m - 1, n - 1);
    }
  }

  /**
   * Without coupling, `lin_solve` returns the right-hand side with the wall
   * relation imposed, whatever the field held before. This is `diffuse`
   * with a zero diffusion rate or a zero time step.
   */
  lemma LinSolvedUncoupled(n: nat, b: int, t: Field, t0: Field, k: int)
    requires n >= 3 && IsGrid(n, t) && IsGrid(n, t0) && k >= 1
    ensures LinSolved(n, b, t, t0, 0.0, 1.0, k) == WithBoundary(n, b, t0)
  {
    var prev := LinSolved(n, b, t, t0, 0.0, 1.0, k - 1);
    SweepUncoupled(n, prev, t0, n - 1);
    WriteRowsOverlay(n, prev, t0);
    WithBoundaryInteriorOnly(n, b, Overlay(n, prev, t0), t0);
  }

  lemma DiffusedWithoutDiffusion(n: nat, b: int, x: Field, x0: Field, diff: real, dt: real, k: int)
    requires n >= 3 && IsGrid(n, x) && IsGrid(n, x0) && k >= 1 && dt * diff == 0.0
    ensures 1.0 + 6.0 * DiffusionRate(n, dt, diff) != 0.0
    ensures Diffused(n, b, x, x0, DiffusionRate(n, dt, diff), k) == WithBoundary(n, b, x0)
  {
    var m := (n - 2) as real;
    assert DiffusionRate(n, dt, diff) == (dt * diff) * m * m;
    assert (dt * diff) * m == 0.0;
    assert DiffusionRate(n, dt, diff) == 0.0;
    assert Diffused(n, b, x, x0, 0.0, k) == LinSolved(n, b, x, x0, 0.0, 1.0, k);
    LinSolvedUncoupled(n, b, x, x0, k);
  }

  /**
   * With `a ≥ 0` and `c = 1 + 6a` the relaxed value is a combination of
   * cells with non-negative weights summing to `(1 + 4a)/(1 + 6a) ≤ 1`, so
   * it stays in any range `[lo, hi]` that contains zero.
   */
  lemma RelaxedAtInRange(n: nat, t: Field, t0: Field, a: real, i: int, j: int, lo: real, hi: real)
    requires IsGrid(n, t) && IsGrid(n, t0) && Interior(n, i, j) && a >= 0.0 && lo <= 0.0 <= hi
    requires InRange(n, t, lo, hi) && InRange(n, t0, lo, hi)
    ensures lo <= RelaxedAt(n, t, t0, a, 1.0 / (1.0 + 6.0 * a), i, j) <= hi
  {
    assert lo <= t[j][i + 1] <= hi && lo <= t[j][i - 1] <= hi && lo <= t[j + 1][i] <= hi && lo <= t[j - 1][i] <= hi;
    assert lo <= t0[j][i] <= hi;
    RelaxedValueInRange(t0[j][i], t[j][i + 1], t[j][i - 1], t[j + 1][i], t[j - 1][i], a, lo, hi);
  }

  /** The relaxed value of a cell whose right-hand side and neighbours lie in `[lo, hi]`. */
  lemma RelaxedValueInRange(v: real, e: real, w: real, s: real, o: real, a: real, lo: real, hi: real)
    requires a >= 0.0 && lo <= 0.0 <= hi && lo <= v <= hi
    requires lo <= e <= hi && lo <= w <= hi && lo <= s <= hi && lo <= o <= hi
    ensures lo <= (v + a * (e + w + s + o)) * (1.0 / (1.0 + 6.0 * a)) <= hi
  {
    var sum := e + w + s + o;
    assert 4.0 * lo <= sum <= 4.0 * hi;
    WeightedBounds(v, sum, a, lo, hi);
    ScaleBounds(v + a * sum, 1.0 + 6.0 * a, lo, hi);
  }

  /** `v + a·s` with `v ∈ [lo, hi]`, `s ∈ [4lo, 4hi]` lies in `[lo, hi]·(1 + 6a)` when `lo ≤ 0 ≤ hi`. */
  lemma WeightedBounds(v: real, s: real, a: real, lo: real, hi: real)
    requires a >= 0.0 && lo <= 0.0 <= hi && lo <= v <= hi && 4.0 * lo <= s <= 4.0 * hi
    ensures lo * (1.0 + 6.0 * a) <= v + a * s <= hi * (1.0 + 6.0 * a)
  {
    UpperWeighted(v, s, a, hi);
    UpperWeighted(-v, -s, a, -lo);
    assert -(lo * (1.0 + 6.0 * a)) == -lo * (1.0 + 6.0 * a);
    assert -(v + a * s) == -v + a * -s;
  }

  lemma UpperWeighted(v: real, s: real, a: real, hi: real)
    requires a >= 0.0 && 0.0 <= hi && v <= hi && s <= 4.0 * hi
    ensures v + a * s <= hi * (1.0 + 6.0 * a)
  {
    MulLeft(a, s, 4.0 * hi);
    MulLeft(a, 0.0, hi);
    assert a * (4.0 * hi) == 4.0 * (a * hi);
    assert hi * (1.0 + 6.0 * a) == hi + 6.0 * (a * hi);
  }

  lemma MulLeft(a: real, x: real, y: real)
    requires a >= 0.0 && x <= y
    ensures a * x <= a * y
  {
  }

  lemma ScaleBounds(num: real, c: real, lo: real, hi: real)
    requires c > 0.0 && lo * c <= num <= hi * c
    ensures lo <= num * (1.0 / c) <= hi
  {
    assert num * (1.0 / c) == num / c;
  }

  lemma {:induction false} SweepRowInRange(n: nat, t: Field, t0: Field, a: real, j: int, m: int, lo: real, hi: real)
    requires IsGrid(n, t) && IsGrid(n, t0) && 1 <= j <= n - 2 && m <= n - 1 && a >= 0.0 && lo <= 0.0 <= hi
    requires InRange(n, t, lo, hi) && InRange(n, t0, lo, hi)
    ensures InRange(n, SweepRow(n, t, t0, a, 1.0 / (1.0 + 6.0 * a), j, m), lo, hi)
    decreases m
  {
    if m > 1 {
      var u := SweepRow(n, t, t0, a, 1.0 / (1.0 + 6.0 * a), j, m - 1);
      SweepRowInRange(n, t, t0, a, j, m - 1, lo, hi);
      RelaxedAtInRange(n, u, t0, a, m - 1, j, lo, hi);
    }
  }

  lemma {:induction false} SweepInRange(n: nat, t: Field, t0: Field, a: real, m: int, lo: real, hi: real)
    requires IsGrid(n, t) && IsGrid(n, t0) && m <= n - 1 && a >= 0.0 && lo <= 0.0 <= hi
    requires InRange(n, t, lo, hi) && InRange(n, t0, lo, hi)
    ensures InRange(n, Sweep(n, t, t0, a, 1.0 / (1.0 + 6.0 * a), m), lo, hi)
    decreases m
  {
    if m > 1 {
      SweepInRange(n, t, t0, a, m - 1, lo, hi);
      SweepRowInRange(n, Sweep(n, t, t0, a, 1.0 / (1.0 + 6.0 * a), m - 1), t0, a, m - 1, n - 1, lo, hi);
    }
  }

  /**
   * `diffuse` never amplifies: with a non-negative rate, a field and a
   * right-hand side within `[lo, hi]` (a range containing zero, symmetric
   * unless the tag is 0) give a result within `[lo, hi]`.
   */
  lemma {:induction false} LinSolvedInRange(n: nat, b: int, t: Field, t0: Field, a: real, k: int, lo: real, hi: real)
    requires n >= 3 && IsGrid(n, t) && IsGrid(n, t0) && a >= 0.0 && lo <= 0.0 <= hi
    requires b == NoTag || lo == -hi
    requires InRange(n, t, lo, hi) && InRange(n, t0, lo, hi)
    ensures InRange(n, LinSolved(n, b, t, t0, a, 1.0 + 6.0 * a, k), lo, hi)
    decreases k
  {
    if k > 0 {
      var prev := LinSolved(n, b, t, t0, a, 1.0 + 6.0 * a, k - 1);
      LinSolvedInRange(n, b, t, t0, a, k - 1, lo, hi);
      SweepInRange(n, prev, t0, a, n - 1, lo, hi);
      WithBoundaryInRange(n, b, Sweep(n, prev, t0, a, 1.0 / (1.0 + 6.0 * a), n - 1), lo, hi);
    }
  }

  lemma DiffusedInRange(n: nat, b: int, x: Field, x0: Field, diff: real, dt: real, k: int, lo: real, hi: real)
    requires n >= 3 && IsGrid(n, x) && IsGrid(n, x0) && dt * diff >= 0.0 && lo <= 0.0 <= hi
    requires b == NoTag || lo == -hi
    requires InRange(n, x, lo, hi) && InRange(n, x0, lo, hi)
    ensures 1.0 + 6.0 * DiffusionRate(n, dt, diff) != 0.0
    ensures DiffusionRate(n, dt, diff) >= 0.0
    ensures InRange(n, Diffused(n, b, x, x0, DiffusionRate(n, dt, diff), k), lo, hi)
  {
    var m := (n - 2) as real;
    assert DiffusionRate(n, dt, diff) == (dt * diff) * (m * m);
    assert DiffusionRate(n, dt, diff) >= 0.0 by { MulLeft(dt * diff, 0.0, m * m); }
    LinSolvedInRange(n, b, x, x0, DiffusionRate(n, dt, diff), k, lo, hi);
  }

  /** Zero field and zero right-hand side stay zero. */
  lemma LinSolvedZero(n: nat, b: int, a: real, c: real, k: int)
    requires n >= 3 && c != 0.0
    ensures LinSolved(n, b, Zeros(n), Zeros(n), a, c, k) == Zeros(n)
  {
    var z := Zeros(n);
    forall i, j | Interior(n, i, j)
      ensures BalancedAt(n, z, z, a, c, i, j)
    {
      assert z[j][i] == 0.0 && z[j][i + 1] == 0.0 && z[j][i - 1] == 0.0 && z[j + 1][i] == 0.0 && z[j - 1][i] == 0.0;
    }
    assert BoundaryHolds(n, b, z);
    LinSolvedFixpoint(n, b, z, z, a, c, k);
  }

  /**
   * The constant 6 in `c = 1 + 6a` counts the neighbours of a cell in three
   * dimensions; the grid here has four. As a consequence a uniform field is
   * a solution of the system `diffuse` relaxes towards only when it is zero,
   * so diffusion drains a uniform density instead of leaving it in place.
   */
  lemma UniformSolvesOnlyZero(n: nat, v: real, a: real)
    requires n >= 3 && a > 0.0
    ensures Solves(n, Uniform(n, v), Uniform(n, v), a, 1.0 + 6.0 * a) <==> v == 0.0
  {
    var u := Uniform(n, v);
    if Solves(n, u, u, a, 1.0 + 6.0 * a) {
      assert Interior(n, 1, 1);
      assert BalancedAt(n, u, u, a, 1.0 + 6.0 * a, 1, 1);
      assert u[1][1] == v && u[1][2] == v && u[1][0] == v && u[2][1] == v && u[0][1] == v;
      assert (1.0 + 6.0 * a) * v == v + a * (4.0 * v);
      ProductZero(a, v);
    }
    if v == 0.0 {
      forall i, j | Interior(n, i, j)
        ensures BalancedAt(n, u, u, a, 1.0 + 6.0 * a, i, j)
      {
        assert u[j][i] == 0.0 && u[j][i + 1] == 0.0 && u[j][i - 1] == 0.0 && u[j + 1][i] == 0.0 && u[j - 1][i] == 0.0;
      }
    }
  }

  lemma ProductZero(a: real, v: real)
    requires a != 0.0 && (1.0 + 6.0 * a) * v == v + a * (4.0 * v)
    ensures v == 0.0
  {
    assert 2.0 * (a * v) == 0.0;
    assert v == (a * v) / a;
  }

  /** Within row `j`, cell `(i, j)` keeps the value the inner loop stored when it passed. */
  lemma {:induction false} SweepRowSettled(n: nat, t: Field, t0: Field, a: real, cr: real, j: int, m: int, i: int)
    requires IsGrid(n, t) && IsGrid(n, t0) && 1 <= j <= n - 2 && 1 <= i < m <= n - 1
    ensures SweepRow(n, t, t0, a, cr, j, m)[j][i] == RelaxedAt(n, SweepRow(n, t, t0, a, cr, j, i), t0, a, cr, i, j)
    decreases m
  {
    if m > i + 1 {
      SweepRowSettled(n, t, t0, a, cr, j, m - 1, i);
    }
  }

  /** A row the outer loop has finished is not written again by the later rows. */
  lemma {:induction false} SweepSettled(n: nat, t: Field, t0: Field, a: real, cr: real, m: int, x: int, y: int)
    requires IsGrid(n, t) && IsGrid(n, t0) && 1 <= y < m <= n - 1 && 0 <= x < n
    ensures Sweep(n, t, t0, a, cr, m)[y][x] == Sweep(n, t, t0, a, cr, y + 1)[y][x]
    decreases m
  {
    if m > y + 1 {
      SweepSettled(n, t, t0, a, cr, m - 1, x, y);
      SweepRowOutside(n, Sweep(n, t, t0, a, cr, m - 1), t0, a, cr, m - 1, n - 1, x, y);
    }
  }

  /**
   * Consequently a uniform non-zero field is not a fixed point of `diffuse`:
   * one sweep, and one iteration of `lin_solve`, already move cell `(1, 1)`.
   */
  lemma UniformNotFixed(n: nat, b: int, v: real, a: real)
    requires n >= 3 && a > 0.0 && v != 0.0
    ensures Sweep(n, Uniform(n, v), Uniform(n, v), a, 1.0 / (1.0 + 6.0 * a), n - 1) != Uniform(n, v)
    ensures LinSolved(n, b, Uniform(n, v), Uniform(n, v), a, 1.0 + 6.0 * a, 1) != Uniform(n, v)
  {
    var u, cr := Uniform(n, v), 1.0 / (1.0 + 6.0 * a);
    var s := Sweep(n, u, u, a, cr, n - 1);
    SweepSettled(n, u, u, a, cr, n - 1, 1, 1);
    SweepRowSettled(n, u, u, a, cr, 1, n - 1, 1);
    assert u[1][1] == v && u[1][2] == v && u[1][0] == v && u[2][1] == v && u[0][1] == v;
    assert s[1][1] == (v + a * (v + v + v + v)) * cr;
    RelaxedUniformMoves(v, a);
    assert Interior(n, 1, 1);
    WithBoundaryKeepsInterior(n, b, s);
  }

  lemma RelaxedUniformMoves(v: real, a: real)
    requires a > 0.0 && v != 0.0
    ensures (v + a * (v + v + v + v)) * (1.0 / (1.0 + 6.0 * a)) != v
  {
  }

  /*
   * The same sweep on the flat buffer, cell by cell as the source stores it;
   * the `View` lemmas connect each function to its counterpart on fields.
   */

  /** The value `lin_solve` stores at `IX(i, j)`, read from the buffers through `IX`. */
  function RelaxedBuf(n: nat, u: seq<real>, u0: seq<real>, a: real, cr: real, i: int, j: int): real
    requires n >= 1 && |u| == n * n && |u0| == n * n
  {
    (u0[IX(n, i, j)] + a * (u[IX(n, i + 1, j)] + u[IX(n, i - 1, j)] + u[IX(n, i, j + 1)] + u[IX(n, i, j - 1)])) * cr
  }

  function RelaxBuf(n: nat, u: seq<real>, u0: seq<real>, a: real, cr: real, i: int, j: int): (r: seq<real>)
    requires n >= 1 && |u| == n * n && |u0| == n * n
    ensures |r| == n * n
  {
    u[IX(n, i, j) := RelaxedBuf(n, u, u0, a, cr, i, j)]
  }

  function SweepRowBuf(n: nat, u: seq<real>, u0: seq<real>, a: real, cr: real, j: int, m: int): (r: seq<real>)
    requires n >= 1 && |u| == n * n && |u0| == n * n
    ensures |r| == n * n
    decreases m
  {
    if m <= 1 then u else RelaxBuf(n, SweepRowBuf(n, u, u0, a, cr, j, m - 1), u0, a, cr, m - 1, j)
  }

  function SweepBuf(n: nat, u: seq<real>, u0: seq<real>, a: real, cr: real, m: int): (r: seq<real>)
    requires n >= 1 && |u| == n * n && |u0| == n * n
    ensures |r| == n * n
    decreases m
  {
    if m <= 1 then u else SweepRowBuf(n, SweepBuf(n, u, u0, a, cr, m - 1), u0, a, cr, m - 1, n - 1)
  }

  lemma RelaxedBufView(n: nat, u: seq<real>, u0: seq<real>, a: real, cr: real, i: int, j: int)
    requires n >= 3 && |u| == n * n && |u0| == n * n && Interior(n, i, j)
    ensures RelaxedBuf(n, u, u0, a, cr, i, j) == RelaxedAt(n, View(n, u), View(n, u0), a, cr, i, j)
  {
    var t, t0 := View(n, u), View(n, u0);
    assert t0[j][i] == u0[IX(n, i, j)];
    assert t[j][i + 1] + t[j][i - 1] + t[j + 1][i] + t[j - 1][i]
        == u[IX(n, i + 1, j)] + u[IX(n, i - 1, j)] + u[IX(n, i, j + 1)] + u[IX(n, i, j - 1)];
  }

  lemma RelaxBufView(n: nat, u: seq<real>, u0: seq<real>, a: real, cr: real, i: int, j: int)
    requires n >= 3 && |u| == n * n && |u0| == n * n && Interior(n, i, j)
    ensures View(n, RelaxBuf(n, u, u0, a, cr, i, j)) == Relax(n, View(n, u), View(n, u0), a, cr, i, j)
  {
    RelaxedBufView(n, u, u0, a, cr, i, j);
    ViewUpdate(n, u, i, j, RelaxedBuf(n, u, u0, a, cr, i, j));
  }

  lemma {:induction false} SweepRowBufView(n: nat, u: seq<real>, u0: seq<real>, a: real, cr: real, j: int, m: int)
    requires n >= 3 && |u| == n * n && |u0| == n * n && 1 <= j <= n - 2 && m <= n - 1
    ensures View(n, SweepRowBuf(n, u, u0, a, cr, j, m)) == SweepRow(n, View(n, u), View(n, u0), a, cr, j, m)
    decreases m
  {
    if m > 1 {
      SweepRowBufView(n, u, u0, a, cr, j, m - 1);
      RelaxBufView(n, SweepRowBuf(n, u, u0, a, cr, j, m - 1), u0, a, cr, m - 1, j);
    }
  }

  lemma {:induction false} SweepBufView(n: nat, u: seq<real>, u0: seq<real>, a: real, cr: real, m: int)
    requires n >= 3 && |u| == n * n && |u0| == n * n && m <= n - 1
    ensures View(n, SweepBuf(n, u, u0, a, cr, m)) == Sweep(n, View(n, u), View(n, u0), a, cr, m)
    decreases m
  {
    if m > 1 {
      SweepBufView(n, u, u0, a, cr, m - 1);
      SweepBufViewStep(n, u, u0, a, cr, m);
    }
  }

  lemma SweepBufViewStep(n: nat, u: seq<real>, u0: seq<real>, a: real, cr: real, m: int)
    requires n >= 3 && |u| == n * n && |u0| == n * n && 1 < m <= n - 1
    requires View(n, SweepBuf(n, u, u0, a, cr, m - 1)) == Sweep(n, View(n, u), View(n, u0), a, cr, m - 1)
    ensures View(n, SweepBuf(n, u, u0, a, cr, m)) == Sweep(n, View(n, u), View(n, u0), a, cr, m)
  {
    SweepRowBufView(n, SweepBuf(n, u, u0, a, cr, m - 1), u0, a, cr, m - 1, n - 1);
  }
}
