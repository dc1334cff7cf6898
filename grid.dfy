/**
 * Grid addressing for the fluid solver. The source stores each N×N field
 * row-major in one flat buffer of N·N cells and addresses it through `IX`,
 * which clamps out-of-range coordinates to the border. The specification
 * functions of this model read a field as a sequence of rows instead:
 * `f[y][x]` is the cell `IX(x, y)`, and `View` turns a buffer into that
 * form.
 */
module Grid {

  /** Math.Clamp on integers: `v` limited to `[lo, hi]`. */
  function Clamp(v: int, lo: int, hi: int): (r: int)
    requires lo <= hi
    ensures lo <= r <= hi
    ensures lo <= v <= hi ==> r == v
    ensures v < lo ==> r == lo
    ensures v > hi ==> r == hi
  {
    if v < lo then lo else if v > hi then hi else v
  }

  lemma MulLess(a: int, b: int, n: nat)
    requires a <= b
    ensures a * n <= b * n
  {
  }

  /**
   * `IX` (Fluid.cs:69-73): both coordinates clamped to `[0, n-1]`, then
   * linearised as `x + y·n`. The result is always an index of the buffer.
   */
  function IX(n: nat, x: int, y: int): (k: int)
    requires n >= 1
    ensures 0 <= k < n * n
  {
    var cx, cy := Clamp(x, 0, n - 1), Clamp(y, 0, n - 1);
    MulLess(cy, n - 1, n);
    cx + cy * n
  }

  /** `IX` depends on its arguments only through their clamped values. */
  lemma IXClamps(n: nat, x: int, y: int)
    requires n >= 1
    ensures IX(n, x, y) == IX(n, Clamp(x, 0, n - 1), Clamp(y, 0, n - 1))
    ensures 0 <= x < n && 0 <= y < n ==> IX(n, x, y) == x + y * n
  {
  }

  /** On the grid, `IX` is injective: distinct cells have distinct indices. */
  lemma IXInjective(n: nat, x1: int, y1: int, x2: int, y2: int)
    requires 0 <= x1 < n && 0 <= y1 < n && 0 <= x2 < n && 0 <= y2 < n
    ensures IX(n, x1, y1) == IX(n, x2, y2) <==> x1 == x2 && y1 == y2
  {
    if y1 < y2 {
      MulLess(y1 + 1, y2, n);
      assert (y1 + 1) * n == y1 * n + n;
    } else if y2 < y1 {
      MulLess(y2 + 1, y1, n);
      assert (y2 + 1) * n == y2 * n + n;
    }
  }

  /** Column and row of the index `k`, that is `k % n` and `k / n`. */
  function Col(n: nat, k: nat): (i: nat)
    requires n >= 1
    ensures i < n
    decreases k
  {
    if k < n then k else Col(n, k - n)
  }

  function Row(n: nat, k: nat): (j: nat)
    requires n >= 1
    decreases k
  {
    if k < n then 0 else 1 + Row(n, k - n)
  }

  lemma {:induction false} ColRow(n: nat, k: nat)
    requires n >= 1
    ensures k == Col(n, k) + Row(n, k) * n
    decreases k
  {
    if k >= n {
      ColRow(n, k - n);
    }
  }

  /** `IX` is onto: every index of the buffer addresses some cell of the grid. */
  lemma IXOnto(n: nat, k: int)
    requires n >= 1 && 0 <= k < n * n
    ensures Row(n, k) < n && IX(n, Col(n, k), Row(n, k)) == k
  {
    ColRow(n, k);
    if Row(n, k) >= n {
      MulLess(n, Row(n, k), n);
    }
  }

  /** A field as a sequence of rows. */
  type Field = seq<seq<real>>

  /** `f` has `n` rows of `n` cells. */
  predicate IsGrid(n: nat, f: Field)
  {
    |f| == n && forall y | 0 <= y < n :: |f[y]| == n
  }

  /** The buffer `s` read through `IX`: row `y`, column `x` is `s[IX(x, y)]`. */
  function View(n: nat, s: seq<real>): (f: Field)
    requires n >= 1 && |s| == n * n
    ensures IsGrid(n, f)
  {
    seq(n, y => seq(n, x => s[IX(n, x, y)]))
  }

  /** `f` with cell `(x, y)` set to `v`. */
  function Set(f: Field, x: int, y: int, v: real): (r: Field)
    requires 0 <= y < |f| && 0 <= x < |f[y]|
    ensures |r| == |f| && forall j | 0 <= j < |f| :: |r[j]| == |f[j]|
  {
    f[y := f[y][x := v]]
  }

  /** Storing into the buffer at `IX(x, y)` sets cell `(x, y)` of its view and no other. */
  lemma ViewUpdate(n: nat, s: seq<real>, x: int, y: int, v: real)
    requires |s| == n * n && 0 <= x < n && 0 <= y < n
    ensures View(n, s[IX(n, x, y) := v]) == Set(View(n, s), x, y, v)
  {
    var l, r := View(n, s[IX(n, x, y) := v]), Set(View(n, s), x, y, v);
    forall j | 0 <= j < n
      ensures l[j] == r[j]
    {
      forall i | 0 <= i < n
        ensures l[j][i] == r[j][i]
      {
        IXInjective(n, i, j, x, y);
      }
    }
  }

  /** A buffer is determined by its view. */
  lemma ViewInjective(n: nat, s: seq<real>, t: seq<real>)
    requires n >= 1 && |s| == n * n && |t| == n * n && View(n, s) == View(n, t)
    ensures s == t
  {
    forall k | 0 <= k < n * n
      ensures s[k] == t[k]
    {
      IXOnto(n, k);
      assert View(n, s)[Row(n, k)][Col(n, k)] == View(n, t)[Row(n, k)][Col(n, k)];
    }
  }

  /** The buffer whose index `k` holds cell `(k % n, k / n)` of `f`. */
  function Flatten(n: nat, f: Field): (s: seq<real>)
    requires n >= 1 && IsGrid(n, f)
    ensures |s| == n * n
  {
    seq(n * n, k requires 0 <= k < n * n => IXOnto(n, k); f[Row(n, k)][Col(n, k)])
  }

  /** Every field of the grid is the view of some buffer, so `View` is a bijection. */
  lemma ViewOnto(n: nat, f: Field)
    requires n >= 1 && IsGrid(n, f)
    ensures View(n, Flatten(n, f)) == f
  {
    var s := Flatten(n, f);
    forall y | 0 <= y < n
      ensures View(n, s)[y] == f[y]
    {
      forall x | 0 <= x < n
        ensures View(n, s)[y][x] == f[y][x]
      {
        var k := IX(n, x, y);
        IXOnto(n, k);
        IXInjective(n, Col(n, k), Row(n, k), x, y);
      }
    }
  }

  /** The interior cells `1..n-2 × 1..n-2`: the only cells the solver's sweeps write. */
  predicate Interior(n: int, i: int, j: int)
  {
    1 <= i <= n - 2 && 1 <= j <= n - 2
  }

  /** The field `t` with its interior cells taken from `v`. */
  function Overlay(n: nat, t: Field, v: Field): (r: Field)
    requires IsGrid(n, t) && IsGrid(n, v)
    ensures IsGrid(n, r)
  {
    seq(n, y requires 0 <= y < n => seq(n, x requires 0 <= x < n => if Interior(n, x, y) then v[y][x] else t[y][x]))
  }

  /**
   * A row-major sweep over the interior, `j` outer and `i` inner, that stores
   * `v[j][i]` into each cell it visits, as the loops of `project` and `advect`
   * do. `WriteRow(n, t, v, j, m)` is `t` after the cells `(1, j) .. (m-1, j)`
   * have been stored, and `WriteRows(n, t, v, m)` is `t` after the rows
   * `1 .. m-1` have been swept.
   */
  function WriteRow(n: nat, t: Field, v: Field, j: int, m: int): (r: Field)
    requires IsGrid(n, t) && IsGrid(n, v) && 0 <= j < n && m <= n
    ensures IsGrid(n, r)
    decreases m
  {
    if m <= 1 then t
    else Set(WriteRow(n, t, v, j, m - 1), m - 1, j, v[j][m - 1])
  }

  function WriteRows(n: nat, t: Field, v: Field, m: int): (r: Field)
    requires n >= 1 && IsGrid(n, t) && IsGrid(n, v) && m <= n
    ensures IsGrid(n, r)
    decreases m
  {
    if m <= 1 then t
    else WriteRow(n, WriteRows(n, t, v, m - 1), v, m - 1, n - 1)
  }

  /** After the row sweep has reached `m`, exactly the cells `(1..m-1, j)` hold `v`. */
  lemma {:induction false} WriteRowAt(n: nat, t: Field, v: Field, j: int, m: int, x: int, y: int)
    requires IsGrid(n, t) && IsGrid(n, v) && 0 <= j < n && m <= n && 0 <= x < n && 0 <= y < n
    ensures WriteRow(n, t, v, j, m)[y][x] == if y == j && 1 <= x < m then v[y][x] else t[y][x]
    decreases m
  {
    if m > 1 {
      WriteRowAt(n, t, v, j, m - 1, x, y);
    }
  }

  /** After the rows `1..m-1` have been swept, exactly their interior cells hold `v`. */
  lemma {:induction false} WriteRowsAt(n: nat, t: Field, v: Field, m: int, x: int, y: int)
    requires n >= 1 && IsGrid(n, t) && IsGrid(n, v) && m <= n - 1 && 0 <= x < n && 0 <= y < n
    ensures WriteRows(n, t, v, m)[y][x] == if Interior(n, x, y) && y < m then v[y][x] else t[y][x]
    decreases m
  {
    if m > 1 {
      WriteRowsAt(n, t, v, m - 1, x, y);
      WriteRowAt(n, WriteRows(n, t, v, m - 1), v, m - 1, n - 1, x, y);
    }
  }

  /** The full sweep replaces the interior of `t` by that of `v` and nothing else. */
  lemma WriteRowsOverlay(n: nat, t: Field, v: Field)
    requires n >= 1 && IsGrid(n, t) && IsGrid(n, v)
    ensures WriteRows(n, t, v, n - 1) == Overlay(n, t, v)
  {
    forall y | 0 <= y < n
      ensures WriteRows(n, t, v, n - 1)[y] == Overlay(n, t, v)[y]
    {
      WriteRowsOverlayRow(n, t, v, y);
    }
  }

  lemma WriteRowsOverlayRow(n: nat, t: Field, v: Field, y: int)
    requires n >= 1 && IsGrid(n, t) && IsGrid(n, v) && 0 <= y < n
    ensures WriteRows(n, t, v, n - 1)[y] == Overlay(n, t, v)[y]
  {
    forall x | 0 <= x < n
      ensures WriteRows(n, t, v, n - 1)[y][x] == Overlay(n, t, v)[y][x]
    {
      WriteRowsOverlayAt(n, t, v, x, y);
    }
  }

  lemma WriteRowsOverlayAt(n: nat, t: Field, v: Field, x: int, y: int)
    requires n >= 1 && IsGrid(n, t) && IsGrid(n, v) && 0 <= x < n && 0 <= y < n
    ensures WriteRows(n, t, v, n - 1)[y][x] == Overlay(n, t, v)[y][x]
  {
    WriteRowsAt(n, t, v, n - 1, x, y);
  }

  /** The field with every cell equal to `v`. */
  function Uniform(n: nat, v: real): (f: Field)
    ensures IsGrid(n, f)
  {
    seq(n, _ => seq(n, _ => v))
  }

  /** A field with every cell zero. */
  function Zeros(n: nat): (f: Field)
    ensures IsGrid(n, f)
  {
    Uniform(n, 0.0)
  }

  /** The buffer of a freshly allocated C# `float[N * N]` reads as the zero field. */
  lemma ViewZeros(n: nat)
    requires n >= 1
    ensures View(n, seq(n * n, _ => 0.0)) == Zeros(n)
  {
    var l := View(n, seq(n * n, _ => 0.0));
    forall y | 0 <= y < n
      ensures l[y] == Zeros(n)[y]
    {
    }
  }

  /** Setting a cell to the value it already holds changes nothing. */
  lemma SetSame(n: nat, f: Field, x: int, y: int)
    requires IsGrid(n, f) && 0 <= x < n && 0 <= y < n
    ensures Set(f, x, y, f[y][x]) == f
  {
    assert f[y][x := f[y][x]] == f[y];
  }

  /** Every cell of `f` lies in `[lo, hi]`. */
  ghost predicate InRange(n: nat, f: Field, lo: real, hi: real)
    requires IsGrid(n, f)
  {
    forall y, x | 0 <= y < n && 0 <= x < n :: lo <= f[y][x] <= hi
  }

  /**
   * The row-major interior sweep of `WriteRow`/`WriteRows` on the flat buffer:
   * each visited cell `(i, j)` is stored at `IX(i, j)`.
   */
  function StoreRow(n: nat, u: seq<real>, v: Field, j: int, m: int): (r: seq<real>)
    requires n >= 1 && |u| == n * n && IsGrid(n, v) && 0 <= j < n && m <= n
    ensures |r| == n * n
    decreases m
  {
    if m <= 1 then u else StoreRow(n, u, v, j, m - 1)[IX(n, m - 1, j) := v[j][m - 1]]
  }

  function StoreRows(n: nat, u: seq<real>, v: Field, m: int): (r: seq<real>)
    requires n >= 1 && |u| == n * n && IsGrid(n, v) && m <= n
    ensures |r| == n * n
    decreases m
  {
    if m <= 1 then u else StoreRow(n, StoreRows(n, u, v, m - 1), v, m - 1, n - 1)
  }

  lemma {:induction false} StoreRowView(n: nat, u: seq<real>, v: Field, j: int, m: int)
    requires n >= 1 && |u| == n * n && IsGrid(n, v) && 0 <= j < n && m <= n
    ensures View(n, StoreRow(n, u, v, j, m)) == WriteRow(n, View(n, u), v, j, m)
    decreases m
  {
    if m > 1 {
      StoreRowView(n, u, v, j, m - 1);
      ViewUpdate(n, StoreRow(n, u, v, j, m - 1), m - 1, j, v[j][m - 1]);
    }
  }

  lemma {:induction false} StoreRowsView(n: nat, u: seq<real>, v: Field, m: int)
    requires n >= 1 && |u| == n * n && IsGrid(n, v) && m <= n
    ensures View(n, StoreRows(n, u, v, m)) == WriteRows(n, View(n, u), v, m)
    decreases m
  {
    if m > 1 {
      StoreRowsView(n, u, v, m - 1);
      StoreRowsViewStep(n, u, v, m);
    }
  }

  lemma StoreRowsViewStep(n: nat, u: seq<real>, v: Field, m: int)
    requires n >= 1 && |u| == n * n && IsGrid(n, v) && 1 < m <= n
    requires View(n, StoreRows(n, u, v, m - 1)) == WriteRows(n, View(n, u), v, m - 1)
    ensures View(n, StoreRows(n, u, v, m)) == WriteRows(n, View(n, u), v, m)
  {
    StoreRowView(n, StoreRows(n, u, v, m - 1), v, m - 1, n - 1);
  }

  /** The full sweep on the buffer replaces the interior of its view by that of `v`. */
  lemma StoreRowsOverlay(n: nat, u: seq<real>, v: Field)
    requires n >= 1 && |u| == n * n && IsGrid(n, v)
    ensures View(n, StoreRows(n, u, v, n - 1)) == Overlay(n, View(n, u), v)
  {
    StoreRowsView(n, u, v, n - 1);
    WriteRowsOverlay(n, View(n, u), v);
  }

  /** While the sweep is at cell `(i, j)`, that cell still holds its original value. */
  lemma StoreUnwritten(n: nat, u: seq<real>, v: Field, i: int, j: int)
    requires n >= 1 && |u| == n * n && IsGrid(n, v) && Interior(n, i, j)
    ensures StoreRow(n, StoreRows(n, u, v, j), v, j, i)[IX(n, i, j)] == u[IX(n, i, j)]
  {
    StoreRowView(n, StoreRows(n, u, v, j), v, j, i);
    StoreRowsView(n, u, v, j);
    WriteRowAt(n, WriteRows(n, View(n, u), v, j), v, j, i, i, j);
    WriteRowsAt(n, View(n, u), v, j, i, j);
    assert View(n, StoreRow(n, StoreRows(n, u, v, j), v, j, i))[j][i] == View(n, u)[j][i];
  }
}
