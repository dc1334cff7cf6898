/**
 * The simulation object `Fluid` (Fluid.cs:7-49 and 69-340 without the
 * rendering): six `N·N` buffers updated in place by `step`, the two
 * injection routines and the two fades. Each private routine of the source
 * is a method on the buffers it is handed, proved against the function of
 * the specification modules that models it.
 */
module Simulation {
  import opened Grid
  import opened Boundary
  import opened Relaxation
  import opened Projection
  import opened Advection
  import opened Decay
  import opened Stepping

  /** Grid side and number of `lin_solve` iterations (Fluid.cs:8-9). */
  const N := 128
  const Iter := 2

  class Fluid {
    const size: int
    const dt: real
    const diff: real
    const visc: real

    const s: array<real>
    const density: array<real>
    const Vx: array<real>
    const Vy: array<real>
    const Vx0: array<real>
    const Vy0: array<real>

    /** Six distinct buffers of `N·N` cells. */
    ghost predicate Valid()
    {
      && s.Length == N * N && density.Length == N * N
      && Vx.Length == N * N && Vy.Length == N * N
      && Vx0.Length == N * N && Vy0.Length == N * N
      && s != density && s != Vx && s != Vy && s != Vx0 && s != Vy0
      && density != Vx && density != Vy && density != Vx0 && density != Vy0
      && Vx != Vy && Vx != Vx0 && Vx != Vy0
      && Vy != Vx0 && Vy != Vy0
      && Vx0 != Vy0
    }

    /** The buffers read as fields. */
    function Contents(): (st: State)
      requires Valid()
      reads s, density, Vx, Vy, Vx0, Vy0
      ensures IsState(N, st)
    {
      State(View(N, s[..]), View(N, density[..]), View(N, Vx[..]), View(N, Vy[..]), View(N, Vx0[..]), View(N, Vy0[..]))
    }

    /** The array part of the constructor: six fresh zero buffers. */
    constructor (dt: real, diffusion: real, viscosity: real)
      ensures Valid() && fresh(s) && fresh(density) && fresh(Vx) && fresh(Vy) && fresh(Vx0) && fresh(Vy0)
      ensures this.size == N && this.dt == dt && this.diff == diffusion && this.visc == viscosity
      ensures Contents() == Still(N)
    {
      this.size := N;
      this.dt := dt;
      this.diff := diffusion;
      this.visc := viscosity;
      this.s := new real[N * N](_ => 0.0);
      this.density := new real[N * N](_ => 0.0);
      this.Vx := new real[N * N](_ => 0.0);
      this.Vy := new real[N * N](_ => 0.0);
      this.Vx0 := new real[N * N](_ => 0.0);
      this.Vy0 := new real[N * N](_ => 0.0);
      new;
      ViewZeros(N);
      assert s[..] == seq(N * N, _ => 0.0) && density[..] == seq(N * N, _ => 0.0);
      assert Vx[..] == seq(N * N, _ => 0.0) && Vy[..] == seq(N * N, _ => 0.0);
      assert Vx0[..] == seq(N * N, _ => 0.0) && Vy0[..] == seq(N * N, _ => 0.0);
    }

    /** The first loop of `set_bnd`: top and bottom rows. */
    static method SetBndRows(b: int, x: array<real>)
      requires x.Length == N * N
      modifies x
      ensures x[..] == RowsPassBuf(N, b, old(x[..]), N - 1)
    {
      ghost var t := x[..];
      for i := 1 to N - 1
        invariant x[..] == RowsPassBuf(N, b, t, i)
      {
        x[IX(N, i, 0)] := if b == 2 then -x[IX(N, i, 1)] else x[IX(N, i, 1)];
        x[IX(N, i, N - 1)] := if b == 2 then -x[IX(N, i, N - 2)] else x[IX(N, i, N - 2)];
      }
    }

    /** The second loop of `set_bnd`: left and right columns. */
    static method SetBndCols(b: int, x: array<real>)
      requires x.Length == N * N
      modifies x
      ensures x[..] == ColsPassBuf(N, b, old(x[..]), N - 1)
    {
      ghost var t := x[..];
      for j := 1 to N - 1
        invariant x[..] == ColsPassBuf(N, b, t, j)
      {
        x[IX(N, 0, j)] := if b == 1 then -x[IX(N, 1, j)] else x[IX(N, 1, j)];
        x[IX(N, N - 1, j)] := if b == 1 then -x[IX(N, N - 2, j)] else x[IX(N, N - 2, j)];
      }
    }

    /** The four corner assignments of `set_bnd`. */
    static method SetBndCorners(x: array<real>)
      requires x.Length == N * N
      modifies x
      ensures x[..] == CornersPassBuf(N, old(x[..]))
    {
      x[IX(N, 0, 0)] := 0.5 * (x[IX(N, 1, 0)] + x[IX(N, 0, 1)]);
      x[IX(N, 0, N - 1)] := 0.5 * (x[IX(N, 1, N - 1)] + x[IX(N, 0, N - 2)]);
      x[IX(N, N - 1, 0)] := 0.5 * (x[IX(N, N - 2, 0)] + x[IX(N, N - 1, 1)]);
      x[IX(N, N - 1, N - 1)] := 0.5 * (x[IX(N, N - 2, N - 1)] + x[IX(N, N - 1, N - 2)]);
    }

    /** `set_bnd(b, x)` (Fluid.cs:325-340). */
    static method SetBnd(b: int, x: array<real>)
      requires x.Length == N * N
      modifies x
      ensures View(N, x[..]) == WithBoundary(N, b, View(N, old(x[..])))
    {
      SetBndRows(b, x);
      SetBndCols(b, x);
      SetBndCorners(x);
      SetBndBufView(N, b, old(x[..]));
    }

    /** One Gauss–Seidel sweep of `lin_solve` over the interior, `j` outer and `i` inner (Fluid.cs:231-241). */
    static method GaussSeidel(x: array<real>, x0: array<real>, a: real, cRecip: real)
      requires x.Length == N * N && x0.Length == N * N && x != x0
      modifies x
      ensures View(N, x[..]) == Sweep(N, View(N, old(x[..])), View(N, x0[..]), a, cRecip, N - 1)
    {
      ghost var t, t0 := x[..], x0[..];
      for j := 1 to N - 1
        invariant x[..] == SweepBuf(N, t, t0, a, cRecip, j)
        invariant x0[..] == t0
      {
        for i := 1 to N - 1
          invariant x[..] == SweepRowBuf(N, SweepBuf(N, t, t0, a, cRecip, j), t0, a, cRecip, j, i)
          invariant x0[..] == t0
        {
          var v := (x0[IX(N, i, j)]
                    + a * (x[IX(N, i + 1, j)] + x[IX(N, i - 1, j)] + x[IX(N, i, j + 1)] + x[IX(N, i, j - 1)])) * cRecip;
          assert v == RelaxedBuf(N, x[..], t0, a, cRecip, i, j);
          x[IX(N, i, j)] := v;
        }
      }
      SweepBufView(N, t, t0, a, cRecip, N - 1);
    }

    /** `lin_solve(b, x, x0, a, c)` (Fluid.cs:228-244): `Iter` sweeps, each followed by `set_bnd(b, x)`. */
    static method LinSolve(b: int, x: array<real>, x0: array<real>, a: real, c: real)
      requires x.Length == N * N && x0.Length == N * N && x != x0 && c != 0.0
      modifies x
      ensures View(N, x[..]) == LinSolved(N, b, View(N, old(x[..])), View(N, x0[..]), a, c, Iter)
    {
      var cRecip := 1.0 / c;
      ghost var t, t0 := View(N, x[..]), View(N, x0[..]);
      for k := 0 to Iter
        invariant View(N, x[..]) == LinSolved(N, b, t, t0, a, c, k)
        invariant View(N, x0[..]) == t0
      {
        GaussSeidel(x, x0, a, cRecip);
        SetBnd(b, x);
      }
    }

    /** `diffuse(b, x, x0, diff, dt)` (Fluid.cs:223-226). */
    static method Diffuse(b: int, x: array<real>, x0: array<real>, diff: real, dt: real)
      requires x.Length == N * N && x0.Length == N * N && x != x0
      requires 1.0 + 6.0 * DiffusionRate(N, dt, diff) != 0.0
      modifies x
      ensures View(N, x[..]) == Diffused(N, b, View(N, old(x[..])), View(N, x0[..]), DiffusionRate(N, dt, diff), Iter)
    {
      var a := dt * diff * (N - 2) as real * (N - 2) as real;
      assert a == DiffusionRate(N, dt, diff);
      LinSolve(b, x, x0, a, 1.0 + 6.0 * a);
    }

    /** The first loop of `project` (Fluid.cs:247-257): the divergence into `div`, zero into `p`. */
    static method DivergenceLoop(velocX: array<real>, velocY: array<real>, p: array<real>, div: array<real>)
      requires velocX.Length == N * N && velocY.Length == N * N && p.Length == N * N && div.Length == N * N
      requires p != div && p != velocX && p != velocY && div != velocX && div != velocY
      modifies p, div
      ensures View(N, div[..]) == Overlay(N, View(N, old(div[..])), Divergence(N, View(N, velocX[..]), View(N, velocY[..])))
      ensures View(N, p[..]) == Overlay(N, View(N, old(p[..])), Zeros(N))
    {
      ghost var tvx, tvy, tp, tdiv := velocX[..], velocY[..], p[..], div[..];
      ghost var dv := Divergence(N, View(N, tvx), View(N, tvy));
      for j := 1 to N - 1
        invariant div[..] == StoreRows(N, tdiv, dv, j)
        invariant p[..] == StoreRows(N, tp, Zeros(N), j)
        invariant velocX[..] == tvx && velocY[..] == tvy
      {
        for i := 1 to N - 1
          invariant div[..] == StoreRow(N, StoreRows(N, tdiv, dv, j), dv, j, i)
          invariant p[..] == StoreRow(N, StoreRows(N, tp, Zeros(N), j), Zeros(N), j, i)
          invariant velocX[..] == tvx && velocY[..] == tvy
        {
          var v := -0.5 * (velocX[IX(N, i + 1, j)] - velocX[IX(N, i - 1, j)]
                           + velocY[IX(N, i, j + 1)] - velocY[IX(N, i, j - 1)]) / (N as real);
          assert v == DivergenceBuf(N, tvx, tvy, i, j);
          DivergenceBufView(N, tvx, tvy, i, j);
          div[IX(N, i, j)] := v;
          p[IX(N, i, j)] := 0.0;
        }
      }
      StoreRowsOverlay(N, tdiv, dv);
      StoreRowsOverlay(N, tp, Zeros(N));
    }

    /** The last loop of `project` (Fluid.cs:263-270): the pressure gradient subtracted. */
    static method CorrectionLoop(velocX: array<real>, velocY: array<real>, p: array<real>)
      requires velocX.Length == N * N && velocY.Length == N * N && p.Length == N * N
      requires velocX != velocY && p != velocX && p != velocY
      modifies velocX, velocY
      ensures View(N, velocX[..]) == Overlay(N, View(N, old(velocX[..])), XCorrected(N, View(N, old(velocX[..])), View(N, p[..])))
      ensures View(N, velocY[..]) == Overlay(N, View(N, old(velocY[..])), YCorrected(N, View(N, old(velocY[..])), View(N, p[..])))
    {
      ghost var tvx, tvy, tp := velocX[..], velocY[..], p[..];
      ghost var cx, cy := XCorrected(N, View(N, tvx), View(N, tp)), YCorrected(N, View(N, tvy), View(N, tp));
      for j := 1 to N - 1
        invariant velocX[..] == StoreRows(N, tvx, cx, j)
        invariant velocY[..] == StoreRows(N, tvy, cy, j)
        invariant p[..] == tp
      {
        for i := 1 to N - 1
          invariant velocX[..] == StoreRow(N, StoreRows(N, tvx, cx, j), cx, j, i)
          invariant velocY[..] == StoreRow(N, StoreRows(N, tvy, cy, j), cy, j, i)
          invariant p[..] == tp
        {
          StoreUnwritten(N, tvx, cx, i, j);
          StoreUnwritten(N, tvy, cy, i, j);
          var vx := velocX[IX(N, i, j)] - 0.5 * (p[IX(N, i + 1, j)] - p[IX(N, i - 1, j)]) * (N as real);
          var vy := velocY[IX(N, i, j)] - 0.5 * (p[IX(N, i, j + 1)] - p[IX(N, i, j - 1)]) * (N as real);
          assert vx == XCorrectedBuf(N, tvx, tp, i, j);
          assert vy == YCorrectedBuf(N, tvy, tp, i, j);
          XCorrectedBufView(N, tvx, tp, i, j);
          YCorrectedBufView(N, tvy, tp, i, j);
          velocX[IX(N, i, j)] := vx;
          velocY[IX(N, i, j)] := vy;
        }
      }
      StoreRowsOverlay(N, tvx, cx);
      StoreRowsOverlay(N, tvy, cy);
    }

    /** The first half of `project` (Fluid.cs:247-261): divergence, cleared pressure, `set_bnd`, `lin_solve`. */
    static method SolvePressure(velocX: array<real>, velocY: array<real>, p: array<real>, div: array<real>)
      requires velocX.Length == N * N && velocY.Length == N * N && p.Length == N * N && div.Length == N * N
      requires p != div && p != velocX && p != velocY && div != velocX && div != velocY
      modifies p, div
      ensures View(N, div[..]) == DivergenceField(N, Flow(View(N, velocX[..]), View(N, velocY[..]), View(N, old(p[..])), View(N, old(div[..]))))
      ensures View(N, p[..]) == Pressure(N, Iter, Flow(View(N, velocX[..]), View(N, velocY[..]), View(N, old(p[..])), View(N, old(div[..]))))
    {
      ghost var f := Flow(View(N, velocX[..]), View(N, velocY[..]), View(N, p[..]), View(N, div[..]));
      DivergenceLoop(velocX, velocY, p, div);
      SetBnd(0, div);
      SetBnd(0, p);
      LinSolve(0, p, div, 1.0, 6.0);
    }

    /** The second half of `project` (Fluid.cs:263-273): the gradient subtracted, then `set_bnd` with tags 1 and 2. */
    static method Correct(velocX: array<real>, velocY: array<real>, p: array<real>)
      requires velocX.Length == N * N && velocY.Length == N * N && p.Length == N * N
      requires velocX != velocY && p != velocX && p != velocY
      modifies velocX, velocY
      ensures View(N, velocX[..]) == WithBoundary(N, XVelocity, Overlay(N, View(N, old(velocX[..])), XCorrected(N, View(N, old(velocX[..])), View(N, p[..]))))
      ensures View(N, velocY[..]) == WithBoundary(N, YVelocity, Overlay(N, View(N, old(velocY[..])), YCorrected(N, View(N, old(velocY[..])), View(N, p[..]))))
    {
      CorrectionLoop(velocX, velocY, p);
      SetBnd(1, velocX);
      SetBnd(2, velocY);
    }

    /** `project(velocX, velocY, p, div)` (Fluid.cs:246-274), on four distinct buffers. */
    static method Project(velocX: array<real>, velocY: array<real>, p: array<real>, div: array<real>)
      requires velocX.Length == N * N && velocY.Length == N * N && p.Length == N * N && div.Length == N * N
      requires velocX != velocY && velocX != p && velocX != div && velocY != p && velocY != div && p != div
      modifies velocX, velocY, p, div
      ensures Flow(View(N, velocX[..]), View(N, velocY[..]), View(N, p[..]), View(N, div[..]))
           == Projected(N, Iter, Flow(View(N, old(velocX[..])), View(N, old(velocY[..])), View(N, old(p[..])), View(N, old(div[..]))))
    {
      ghost var f := Flow(View(N, velocX[..]), View(N, velocY[..]), View(N, p[..]), View(N, div[..]));
      SolvePressure(velocX, velocY, p, div);
      ghost var pr := View(N, p[..]);
      assert pr == Pressure(N, Iter, f);
      Correct(velocX, velocY, p);
    }
  
    /**
     * The departure point of interior cell `(i, j)` in the loop of `advect`
     * (Fluid.cs:291-303): the cell traced back along its velocity, each
     * coordinate clamped to `[0.5, N + 0.5]`.
     */
    static method Backtrace(velocX: array<real>, velocY: array<real>, dtx: real, dty: real, nReal: real, i: int, j: int)
      returns (x: real, y: real)
      requires velocX.Length == N * N && velocY.Length == N * N && nReal == N as real
      ensures x == Departure(N, i, dtx, velocX[IX(N, i, j)]) && y == Departure(N, j, dty, velocY[IX(N, i, j)])
      ensures 0.5 <= x <= nReal + 0.5 && 0.5 <= y <= nReal + 0.5
    {
      var tmp1 := dtx * velocX[IX(N, i, j)];
      var tmp2 := dty * velocY[IX(N, i, j)];
      x := i as real - tmp1;
      y := j as real - tmp2;
      if x < 0.5 { x := 0.5; }
      if x > nReal + 0.5 { x := nReal + 0.5; }
      if y < 0.5 { y := 0.5; }
      if y > nReal + 0.5 { y := nReal + 0.5; }
    }

    /**
     * The bilinear sample of `d0` at `(x, y)` in the loop of `advect`
     * (Fluid.cs:298-318): the four cells around the point, read through
     * `IX`, weighted by `s0, s1` and `t0, t1`.
     */
    static method Interpolate(d0: array<real>, x: real, y: real) returns (v: real)
      requires d0.Length == N * N
      ensures v == InterpolatedBuf(N, d0[..], x, y)
    {
      var i0 := x.Floor;
      var i1 := i0 + 1;
      var j0 := y.Floor;
      var j1 := j0 + 1;
      var s1 := x - i0 as real;
      var s0 := 1.0 - s1;
      var t1 := y - j0 as real;
      var t0 := 1.0 - t1;
      v := s0 * (t0 * d0[IX(N, i0, j0)] + t1 * d0[IX(N, i0, j1)])
         + s1 * (t0 * d0[IX(N, i1, j0)] + t1 * d0[IX(N, i1, j1)]);
      BilinearWeights(s0, s1, t0, t1, d0[IX(N, i0, j0)], d0[IX(N, i0, j1)], d0[IX(N, i1, j0)], d0[IX(N, i1, j1)]);
    }

    /** The loop of `advect` (Fluid.cs:289-320): each interior cell of `d` interpolated from `d0` at its departure point. */
    static method AdvectLoop(d: array<real>, d0: array<real>, velocX: array<real>, velocY: array<real>, dt: real)
      requires d.Length == N * N && d0.Length == N * N && velocX.Length == N * N && velocY.Length == N * N
      requires d != d0 && d != velocX && d != velocY
      modifies d
      ensures View(N, d[..]) == Overlay(N, View(N, old(d[..])), AdvectField(N, View(N, d0[..]), View(N, velocX[..]), View(N, velocY[..]), dt))
    {
      var dtx := dt * (N - 2) as real;
      var dty := dt * (N - 2) as real;
      var nReal := N as real;
      assert dtx == CellStep(N, dt);
      ghost var td, td0, tvx, tvy := d[..], d0[..], velocX[..], velocY[..];
      ghost var adv := AdvectField(N, View(N, td0), View(N, tvx), View(N, tvy), dt);
      for j := 1 to N - 1
        invariant d[..] == StoreRows(N, td, adv, j)
        invariant d0[..] == td0 && velocX[..] == tvx && velocY[..] == tvy
      {
        for i := 1 to N - 1
          invariant d[..] == StoreRow(N, StoreRows(N, td, adv, j), adv, j, i)
          invariant d0[..] == td0 && velocX[..] == tvx && velocY[..] == tvy
        {
          var x, y := Backtrace(velocX, velocY, dtx, dty, nReal, i, j);
          var v := Interpolate(d0, x, y);
          assert v == AdvectedBuf(N, td0, tvx, tvy, CellStep(N, dt), i, j);
          AdvectedBufView(N, td0, tvx, tvy, dt, i, j);
          d[IX(N, i, j)] := v;
        }
      }
      StoreRowsOverlay(N, td, adv);
    }

    /** `advect(b, d, d0, velocX, velocY, dt)` (Fluid.cs:276-323); `d0` may be one of the velocity buffers. */
    static method Advect(b: int, d: array<real>, d0: array<real>, velocX: array<real>, velocY: array<real>, dt: real)
      requires d.Length == N * N && d0.Length == N * N && velocX.Length == N * N && velocY.Length == N * N
      requires d != d0 && d != velocX && d != velocY
      modifies d
      ensures View(N, d[..]) == Advected(N, b, View(N, old(d[..])), View(N, d0[..]), View(N, velocX[..]), View(N, velocY[..]), dt)
    {
      AdvectLoop(d, d0, velocX, velocY, dt);
      SetBnd(b, d);
    }
  
    /** `addDensity(x, y, amount)` (Fluid.cs:90-93): `amount` added to the one cell at the clamped coordinates. */
    method AddDensity(x: int, y: int, amount: real)
      requires Valid()
      modifies density
      ensures density[..] == old(density[..])[IX(N, x, y) := old(density[IX(N, x, y)]) + amount]
      ensures Contents() == old(Contents()).(density := Set(old(Contents()).density, Clamp(x, 0, N - 1), Clamp(y, 0, N - 1),
                                                             old(Contents()).density[Clamp(y, 0, N - 1)][Clamp(x, 0, N - 1)] + amount))
    {
      var index := IX(N, x, y);
      density[index] := density[index] + amount;
      IXClamps(N, x, y);
      ViewUpdate(N, old(density[..]), Clamp(x, 0, N - 1), Clamp(y, 0, N - 1), old(density[index]) + amount);
    }

    /** `addVelocity(x, y, amountX, amountY)` (Fluid.cs:95-99): both components of the one cell changed. */
    method AddVelocity(x: int, y: int, amountX: real, amountY: real)
      requires Valid()
      modifies Vx, Vy
      ensures Vx[..] == old(Vx[..])[IX(N, x, y) := old(Vx[IX(N, x, y)]) + amountX]
      ensures Vy[..] == old(Vy[..])[IX(N, x, y) := old(Vy[IX(N, x, y)]) + amountY]
      ensures Contents() == old(Contents()).(
        vx := Set(old(Contents()).vx, Clamp(x, 0, N - 1), Clamp(y, 0, N - 1), old(Contents()).vx[Clamp(y, 0, N - 1)][Clamp(x, 0, N - 1)] + amountX),
        vy := Set(old(Contents()).vy, Clamp(x, 0, N - 1), Clamp(y, 0, N - 1), old(Contents()).vy[Clamp(y, 0, N - 1)][Clamp(x, 0, N - 1)] + amountY))
    {
      var index := IX(N, x, y);
      Vx[index] := Vx[index] + amountX;
      Vy[index] := Vy[index] + amountY;
      IXClamps(N, x, y);
      ViewUpdate(N, old(Vx[..]), Clamp(x, 0, N - 1), Clamp(y, 0, N - 1), old(Vx[index]) + amountX);
      ViewUpdate(N, old(Vy[..]), Clamp(x, 0, N - 1), Clamp(y, 0, N - 1), old(Vy[index]) + amountY);
    }

    /** `fadeD()` (Fluid.cs:209-214): every density cell decremented and clamped to `[0, 255]`. */
    method FadeD()
      requires Valid()
      modifies density
      ensures density[..] == Fade(old(density[..]))
      ensures forall k | 0 <= k < density.Length :: 0.0 <= density[k] <= MaxDensity
    {
      for i := 0 to density.Length
        invariant density[..i] == Fade(old(density[..]))[..i]
        invariant density[i..] == old(density[i..])
      {
        density[i] := ClampReal(density[i] - FadeAmount, 0.0, MaxDensity);
      }
      FadeInRange(old(density[..]));
    }

    /** `fadeV()` (Fluid.cs:216-221): every velocity component scaled by 0.99. */
    method FadeV()
      requires Valid()
      modifies Vx, Vy
      ensures Vx[..] == Damp(old(Vx[..])) && Vy[..] == Damp(old(Vy[..]))
    {
      for i := 0 to Vx.Length
        invariant Vx[..i] == Damp(old(Vx[..]))[..i] && Vx[i..] == old(Vx[i..])
        invariant Vy[..i] == Damp(old(Vy[..]))[..i] && Vy[i..] == old(Vy[i..])
      {
        Vx[i] := Vx[i] * Damping;
        Vy[i] := Vy[i] * Damping;
      }
    }

    /** `step()` (Fluid.cs:75-88): the eight calls in order, on the buffers in the roles the source passes them. */
    method Step()
      requires Valid()
      requires 1.0 + 6.0 * DiffusionRate(N, dt, visc) != 0.0 && 1.0 + 6.0 * DiffusionRate(N, dt, diff) != 0.0
      modifies s, density, Vx, Vy, Vx0, Vy0
      ensures Valid()
      ensures Contents() == Stepped(N, old(Contents()), dt, DiffusionRate(N, dt, visc), DiffusionRate(N, dt, diff), Iter)
    {
      Diffuse(1, Vx0, Vx, visc, dt);
      Diffuse(2, Vy0, Vy, visc, dt);
      Project(Vx0, Vy0, Vx, Vy);
      Advect(1, Vx, Vx0, Vx0, Vy0, dt);
      Advect(2, Vy, Vy0, Vx0, Vy0, dt);
      Project(Vx, Vy, Vx0, Vy0);
      Diffuse(0, s, density, diff, dt);
      Advect(0, density, s, Vx, Vy, dt);
    }
  }
}
