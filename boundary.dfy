/**
 * The boundary enforcer `set_bnd` (Fluid.cs:325-340) as a function on
 * fields, and the wall relation it establishes: the border rows and columns
 * mirror the adjacent interior row or column, negated for the wall-normal
 * velocity component, and each corner is the average of its two neighbours
 * on the border.
 */
module Boundary {
  import opened Grid

  /** The boundary tags of the source: 0 for scalars, 1 for `Vx`, 2 for `Vy`. */
  const NoTag := 0
  const XVelocity := 1
  const YVelocity := 2

  /** A value copied across a wall, negated when `negate` holds. */
  function Reflect(negate: bool, v: real): real
  {
    if negate then -v else v
  }

  /** A border cell that is not a corner. */
  predicate Edge(n: int, i: int, j: int)
  {
    (1 <= i <= n - 2 && (j == 0 || j == n - 1)) || (1 <= j <= n - 2 && (i == 0 || i == n - 1))
  }

  /** A corner cell of the grid. */
  predicate Corner(n: int, i: int, j: int)
  {
    (i == 0 || i == n - 1) && (j == 0 || j == n - 1)
  }

  /** The value the two loops of `set_bnd` store in an edge cell (Fluid.cs:326-334). */
  function EdgeValue(n: nat, b: int, s: Field, i: int, j: int): real
    requires n >= 3 && IsGrid(n, s) && Edge(n, i, j)
  {
    if j == 0 then Reflect(b == YVelocity, s[1][i])
    else if j == n - 1 then Reflect(b == YVelocity, s[n - 2][i])
    else if i == 0 then Reflect(b == XVelocity, s[j][1])
    else Reflect(b == XVelocity, s[j][n - 2])
  }

  /** The value `set_bnd` leaves in cell `(i, j)` of a field that held `s`. */
  function BoundedAt(n: nat, b: int, s: Field, i: int, j: int): real
    requires n >= 3 && IsGrid(n, s) && 0 <= i < n && 0 <= j < n
  {
    if Interior(n, i, j) then s[j][i]
    else if Edge(n, i, j) then EdgeValue(n, b, s, i, j)
    else 0.5 * (EdgeValue(n, b, s, if i == 0 then 1 else n - 2, j)
                + EdgeValue(n, b, s, i, if j == 0 then 1 else n - 2))
  }

  /** The field `set_bnd(b, x)` leaves behind when `x` held `s`. */
  function WithBoundary(n: nat, b: int, s: Field): (r: Field)
    requires n >= 3 && IsGrid(n, s)
    ensures IsGrid(n, r)
  {
    seq(n, j requires 0 <= j < n => seq(n, i requires 0 <= i < n => BoundedAt(n, b, s, i, j)))
  }

  /** Two fields agree on every interior cell. */
  ghost predicate SameInterior(n: nat, s: Field, t: Field)
    requires IsGrid(n, s) && IsGrid(n, t)
  {
    forall i, j | Interior(n, i, j) :: s[j][i] == t[j][i]
  }

  /** Rows 0 and n-1 copy rows 1 and n-2, negated iff `b` is the y-velocity tag. */
  ghost predicate RowWalls(n: nat, b: int, s: Field)
    requires n >= 3 && IsGrid(n, s)
  {
    forall i | 1 <= i <= n - 2 ::
      s[0][i] == Reflect(b == YVelocity, s[1][i]) && s[n - 1][i] == Reflect(b == YVelocity, s[n - 2][i])
  }

  /** Columns 0 and n-1 copy columns 1 and n-2, negated iff `b` is the x-velocity tag. */
  ghost predicate ColWalls(n: nat, b: int, s: Field)
    requires n >= 3 && IsGrid(n, s)
  {
    forall j | 1 <= j <= n - 2 ::
      s[j][0] == Reflect(b == XVelocity, s[j][1]) && s[j][n - 1] == Reflect(b == XVelocity, s[j][n - 2])
  }

  /** Every corner is the average of its two neighbours on the border. */
  ghost predicate CornersAveraged(n: nat, s: Field)
    requires n >= 3 && IsGrid(n, s)
  {
    && s[0][0] == 0.5 * (s[0][1] + s[1][0])
    && s[n - 1][0] == 0.5 * (s[n - 1][1] + s[n - 2][0])
    && s[0][n - 1] == 0.5 * (s[0][n - 2] + s[1][n - 1])
    && s[n - 1][n - 1] == 0.5 * (s[n - 1][n - 2] + s[n - 2][n - 1])
  }

  /** The wall relation for tag `b` that `set_bnd(b, ·)` establishes. */
  ghost predicate BoundaryHolds(n: nat, b: int, s: Field)
    requires n >= 3 && IsGrid(n, s)
  {
    RowWalls(n, b, s) && ColWalls(n, b, s) && CornersAveraged(n, s)
  }

  /** `set_bnd` never changes an interior cell. */
  lemma WithBoundaryKeepsInterior(n: nat, b: int, s: Field)
    requires n >= 3 && IsGrid(n, s)
    ensures SameInterior(n, WithBoundary(n, b, s), s)
  {
  }

  /** After `set_bnd(b, ·)` the field satisfies the wall relation for `b`. */
  lemma WithBoundaryHolds(n: nat, b: int, s: Field)
    requires n >= 3 && IsGrid(n, s)
    ensures BoundaryHolds(n, b, WithBoundary(n, b, s))
  {
    var r := WithBoundary(n, b, s);
    assert RowWalls(n, b, r) by {
      forall i | 1 <= i <= n - 2
        ensures r[0][i] == Reflect(b == YVelocity, r[1][i]) && r[n - 1][i] == Reflect(b == YVelocity, r[n - 2][i])
      {
        assert Interior(n, i, 1) && Interior(n, i, n - 2);
      }
    }
    assert ColWalls(n, b, r) by {
      forall j | 1 <= j <= n - 2
        ensures r[j][0] == Reflect(b == XVelocity, r[j][1]) && r[j][n - 1] == Reflect(b == XVelocity, r[j][n - 2])
      {
        assert Interior(n, 1, j) && Interior(n, n - 2, j);
      }
    }
  }

  /** An edge cell of a field in wall relation is fixed by the interior. */
  lemma WallEdge(n: nat, b: int, s: Field, t: Field, i: int, j: int)
    requires n >= 3 && IsGrid(n, s) && IsGrid(n, t)
    requires RowWalls(n, b, t) && ColWalls(n, b, t) && SameInterior(n, s, t) && Edge(n, i, j)
    ensures t[j][i] == EdgeValue(n, b, s, i, j)
  {
    if j == 0 || j == n - 1 {
      assert Interior(n, i, 1) && Interior(n, i, n - 2);
    } else {
      assert Interior(n, 1, j) && Interior(n, n - 2, j);
    }
  }

  /** Every cell of a field in wall relation is fixed by the interior. */
  lemma WallCell(n: nat, b: int, s: Field, t: Field, i: int, j: int)
    requires n >= 3 && IsGrid(n, s) && IsGrid(n, t) && 0 <= i < n && 0 <= j < n
    requires BoundaryHolds(n, b, t) && SameInterior(n, s, t)
    ensures t[j][i] == BoundedAt(n, b, s, i, j)
  {
    if Interior(n, i, j) {
    } else if Edge(n, i, j) {
      WallEdge(n, b, s, t, i, j);
    } else {
      WallEdge(n, b, s, t, if i == 0 then 1 else n - 2, j);
      WallEdge(n, b, s, t, i, if j == 0 then 1 else n - 2);
    }
  }

  /**
   * The wall relation and the interior determine a field: any field that
   * satisfies the relation for `b` and agrees with `s` on the interior is
   * `WithBoundary(n, b, s)`.
   */
  lemma WithBoundaryUnique(n: nat, b: int, s: Field, t: Field)
    requires n >= 3 && IsGrid(n, s) && IsGrid(n, t)
    requires BoundaryHolds(n, b, t) && SameInterior(n, s, t)
    ensures t == WithBoundary(n, b, s)
  {
    var r := WithBoundary(n, b, s);
    forall j | 0 <= j < n
      ensures t[j] == r[j]
    {
      forall i | 0 <= i < n
        ensures t[j][i] == r[j][i]
      {
        WallCell(n, b, s, t, i, j);
      }
    }
  }

  /** `set_bnd` is idempotent: a second call with the same tag changes nothing. */
  lemma WithBoundaryIdempotent(n: nat, b: int, s: Field)
    requires n >= 3 && IsGrid(n, s)
    ensures WithBoundary(n, b, WithBoundary(n, b, s)) == WithBoundary(n, b, s)
  {
    var r := WithBoundary(n, b, s);
    WithBoundaryHolds(n, b, s);
    WithBoundaryKeepsInterior(n, b, r);
    WithBoundaryUnique(n, b, r, r);
  }

  /** A field that already satisfies the wall relation is left unchanged by `set_bnd`. */
  lemma WithBoundaryFixes(n: nat, b: int, s: Field)
    requires n >= 3 && IsGrid(n, s) && BoundaryHolds(n, b, s)
    ensures WithBoundary(n, b, s) == s
  {
    WithBoundaryUnique(n, b, s, s);
  }

  /** A field whose interior is uniformly `v` is uniformly `v` after `set_bnd` with tag 0. */
  lemma WithBoundaryUniform(n: nat, s: Field, v: real)
    requires n >= 3 && IsGrid(n, s)
    requires forall i, j | Interior(n, i, j) :: s[j][i] == v
    ensures WithBoundary(n, NoTag, s) == Uniform(n, v)
  {
    var u := Uniform(n, v);
    assert BoundaryHolds(n, NoTag, u);
    WithBoundaryUnique(n, NoTag, s, u);
  }

  /** A field whose interior is zero is zero everywhere after `set_bnd`, whatever the tag. */
  lemma WithBoundaryZeroInterior(n: nat, b: int, s: Field)
    requires n >= 3 && IsGrid(n, s)
    requires forall i, j | Interior(n, i, j) :: s[j][i] == 0.0
    ensures WithBoundary(n, b, s) == Zeros(n)
  {
    var z := Zeros(n);
    assert BoundaryHolds(n, b, z);
    WithBoundaryUnique(n, b, s, z);
  }

  /** `set_bnd` reads only the interior: fields that agree there come out equal. */
  lemma WithBoundaryInteriorOnly(n: nat, b: int, s: Field, t: Field)
    requires n >= 3 && IsGrid(n, s) && IsGrid(n, t) && SameInterior(n, s, t)
    ensures WithBoundary(n, b, s) == WithBoundary(n, b, t)
  {
    var r := WithBoundary(n, b, t);
    WithBoundaryHolds(n, b, t);
    WithBoundaryKeepsInterior(n, b, t);
    WithBoundaryUnique(n, b, s, r);
  }

  /**
   * `set_bnd` keeps a field within `[lo, hi]`: border cells are copies or
   * averages of cells in range, and negated copies stay in range when the
   * range is symmetric.
   */
  lemma WithBoundaryInRange(n: nat, b: int, s: Field, lo: real, hi: real)
    requires n >= 3 && IsGrid(n, s) && InRange(n, s, lo, hi)
    requires b == NoTag || lo == -hi
    ensures InRange(n, WithBoundary(n, b, s), lo, hi)
  {
    var r := WithBoundary(n, b, s);
    forall y, x | 0 <= y < n && 0 <= x < n
      ensures lo <= r[y][x] <= hi
    {
      BoundedAtInRange(n, b, s, lo, hi, x, y);
    }
  }

  lemma BoundedAtInRange(n: nat, b: int, s: Field, lo: real, hi: real, i: int, j: int)
    requires n >= 3 && IsGrid(n, s) && InRange(n, s, lo, hi) && 0 <= i < n && 0 <= j < n
    requires b == NoTag || lo == -hi
    ensures lo <= BoundedAt(n, b, s, i, j) <= hi
  {
    if !Interior(n, i, j) && !Edge(n, i, j) {
      var e1 := EdgeValue(n, b, s, if i == 0 then 1 else n - 2, j);
      var e2 := EdgeValue(n, b, s, i, if j == 0 then 1 else n - 2);
      assert lo <= e1 <= hi && lo <= e2 <= hi;
    }
  }

  /*
   * The statements of `set_bnd` executed in order on a field. These mirror
   * the two loops and the four corner assignments, each of which reads the
   * field as the previous statements left it.
   */

  /** One iteration of the first loop (Fluid.cs:327-328): the top and bottom cells of column `i`. */
  function RowStep(n: nat, b: int, t: Field, i: int): (r: Field)
    requires n >= 3 && IsGrid(n, t) && 0 <= i < n
    ensures IsGrid(n, r)
  {
    var t1 := Set(t, i, 0, Reflect(b == YVelocity, t[1][i]));
    Set(t1, i, n - 1, Reflect(b == YVelocity, t1[n - 2][i]))
  }

  /** The field after the first loop has handled columns `1..i-1` (Fluid.cs:326-329). */
  function RowsPass(n: nat, b: int, s: Field, i: int): (r: Field)
    requires n >= 3 && IsGrid(n, s) && i <= n - 1
    ensures IsGrid(n, r)
    decreases i
  {
    if i <= 1 then s else RowStep(n, b, RowsPass(n, b, s, i - 1), i - 1)
  }

  /** One iteration of the second loop (Fluid.cs:332-333): the left and right cells of row `j`. */
  function ColStep(n: nat, b: int, t: Field, j: int): (r: Field)
    requires n >= 3 && IsGrid(n, t) && 0 <= j < n
    ensures IsGrid(n, r)
  {
    var t1 := Set(t, 0, j, Reflect(b == XVelocity, t[j][1]));
    Set(t1, n - 1, j, Reflect(b == XVelocity, t1[j][n - 2]))
  }

  /** The field after the second loop has handled rows `1..j-1` (Fluid.cs:331-334). */
  function ColsPass(n: nat, b: int, s: Field, j: int): (r: Field)
    requires n >= 3 && IsGrid(n, s) && j <= n - 1
    ensures IsGrid(n, r)
    decreases j
  {
    if j <= 1 then s else ColStep(n, b, ColsPass(n, b, s, j - 1), j - 1)
  }

  /** Cell `(x, y)` set to the average of cells `(x1, y1)` and `(x2, y2)`, as each corner assignment does. */
  function Average(n: nat, t: Field, x: int, y: int, x1: int, y1: int, x2: int, y2: int): (r: Field)
    requires IsGrid(n, t) && 0 <= x < n && 0 <= y < n && 0 <= x1 < n && 0 <= y1 < n && 0 <= x2 < n && 0 <= y2 < n
    ensures IsGrid(n, r)
  {
    Set(t, x, y, 0.5 * (t[y1][x1] + t[y2][x2]))
  }

  /** The field after the four corner assignments (Fluid.cs:336-339). */
  function CornersPass(n: nat, s: Field): (r: Field)
    requires n >= 3 && IsGrid(n, s)
    ensures IsGrid(n, r)
  {
    var t1 := Average(n, s, 0, 0, 1, 0, 0, 1);
    var t2 := Average(n, t1, 0, n - 1, 1, n - 1, 0, n - 2);
    var t3 := Average(n, t2, n - 1, 0, n - 2, 0, n - 1, 1);
    Average(n, t3, n - 1, n - 1, n - 2, n - 1, n - 1, n - 2)
  }

  /** The whole of `set_bnd`, statement by statement. */
  function SetBndPasses(n: nat, b: int, s: Field): (r: Field)
    requires n >= 3 && IsGrid(n, s)
    ensures IsGrid(n, r)
  {
    CornersPass(n, ColsPass(n, b, RowsPass(n, b, s, n - 1), n - 1))
  }

  /** Cell `(x, y)` after the first loop has reached column `i`. */
  lemma {:induction false} RowsPassAt(n: nat, b: int, s: Field, i: int, x: int, y: int)
    requires n >= 3 && IsGrid(n, s) && i <= n - 1 && 0 <= x < n && 0 <= y < n
    ensures RowsPass(n, b, s, i)[y][x] ==
      if (y == 0 || y == n - 1) && 1 <= x < i then Reflect(b == YVelocity, s[if y == 0 then 1 else n - 2][x])
      else s[y][x]
    decreases i
  {
    if i > 1 {
      if x == i - 1 && (y == 0 || y == n - 1) {
        RowsPassAt(n, b, s, i - 1, x, if y == 0 then 1 else n - 2);
      } else {
        RowsPassAt(n, b, s, i - 1, x, y);
      }
    }
  }

  /** Cell `(x, y)` after the second loop has reached row `j`. */
  lemma {:induction false} ColsPassAt(n: nat, b: int, s: Field, j: int, x: int, y: int)
    requires n >= 3 && IsGrid(n, s) && j <= n - 1 && 0 <= x < n && 0 <= y < n
    ensures ColsPass(n, b, s, j)[y][x] ==
      if (x == 0 || x == n - 1) && 1 <= y < j then Reflect(b == XVelocity, s[y][if x == 0 then 1 else n - 2])
      else s[y][x]
    decreases j
  {
    if j > 1 {
      if y == j - 1 && (x == 0 || x == n - 1) {
        ColsPassAt(n, b, s, j - 1, if x == 0 then 1 else n - 2, y);
      } else {
        ColsPassAt(n, b, s, j - 1, x, y);
      }
    }
  }

  /** The corner assignments change only the corners, each from two non-corner cells. */
  lemma CornersPassAt(n: nat, s: Field, x: int, y: int)
    requires n >= 3 && IsGrid(n, s) && 0 <= x < n && 0 <= y < n
    ensures CornersPass(n, s)[y][x] ==
      if Corner(n, x, y) then 0.5 * (s[y][if x == 0 then 1 else n - 2] + s[if y == 0 then 1 else n - 2][x])
      else s[y][x]
  {
  }

  /** A border cell that is not a corner holds `EdgeValue` after the two loops. */
  lemma LoopsPassEdge(n: nat, b: int, s: Field, x: int, y: int)
    requires n >= 3 && IsGrid(n, s) && Edge(n, x, y)
    ensures ColsPass(n, b, RowsPass(n, b, s, n - 1), n - 1)[y][x] == EdgeValue(n, b, s, x, y)
  {
    ColsPassAt(n, b, RowsPass(n, b, s, n - 1), n - 1, x, y);
    RowsPassAt(n, b, s, n - 1, x, y);
    if x == 0 || x == n - 1 {
      RowsPassAt(n, b, s, n - 1, if x == 0 then 1 else n - 2, y);
    }
  }

  /** Cell `(x, y)` after all statements of `set_bnd` holds `BoundedAt`. */
  lemma SetBndPassesAt(n: nat, b: int, s: Field, x: int, y: int)
    requires n >= 3 && IsGrid(n, s) && 0 <= x < n && 0 <= y < n
    ensures SetBndPasses(n, b, s)[y][x] == BoundedAt(n, b, s, x, y)
  {
    var s1 := RowsPass(n, b, s, n - 1);
    var s2 := ColsPass(n, b, s1, n - 1);
    CornersPassAt(n, s2, x, y);
    if Corner(n, x, y) {
      LoopsPassEdge(n, b, s, if x == 0 then 1 else n - 2, y);
      LoopsPassEdge(n, b, s, x, if y == 0 then 1 else n - 2);
    } else if Edge(n, x, y) {
      LoopsPassEdge(n, b, s, x, y);
    } else {
      ColsPassAt(n, b, s1, n - 1, x, y);
      RowsPassAt(n, b, s, n - 1, x, y);
    }
  }

  /** Executing the statements of `set_bnd` in order yields `WithBoundary`. */
  lemma SetBndPassesCorrect(n: nat, b: int, s: Field)
    requires n >= 3 && IsGrid(n, s)
    ensures SetBndPasses(n, b, s) == WithBoundary(n, b, s)
  {
    var l, r := SetBndPasses(n, b, s), WithBoundary(n, b, s);
    forall y | 0 <= y < n
      ensures l[y] == r[y]
    {
      forall x | 0 <= x < n
        ensures l[y][x] == r[y][x]
      {
        SetBndPassesAt(n, b, s, x, y);
      }
    }
  }

  /*
   * The same statements on the flat buffer, as the solver executes them:
   * each function below stores exactly what the corresponding function on
   * fields sets, at `IX` of the cell, and the `View` lemmas connect the two.
   */

  /** One iteration of the first loop on the buffer. */
  function RowStepBuf(n: nat, b: int, u: seq<real>, i: int): (r: seq<real>)
    requires n >= 3 && |u| == n * n && 0 <= i < n
    ensures |r| == n * n
  {
    var u1 := u[IX(n, i, 0) := Reflect(b == YVelocity, u[IX(n, i, 1)])];
    u1[IX(n, i, n - 1) := Reflect(b == YVelocity, u1[IX(n, i, n - 2)])]
  }

  lemma RowStepBufView(n: nat, b: int, u: seq<real>, i: int)
    requires n >= 3 && |u| == n * n && 0 <= i < n
    ensures View(n, RowStepBuf(n, b, u, i)) == RowStep(n, b, View(n, u), i)
  {
    var v := Reflect(b == YVelocity, u[IX(n, i, 1)]);
    var u1 := u[IX(n, i, 0) := v];
    ViewUpdate(n, u, i, 0, v);
    ViewUpdate(n, u1, i, n - 1, Reflect(b == YVelocity, u1[IX(n, i, n - 2)]));
  }

  /** The first loop on the buffer, up to column `i`. */
  function RowsPassBuf(n: nat, b: int, u: seq<real>, i: int): (r: seq<real>)
    requires n >= 3 && |u| == n * n && i <= n - 1
    ensures |r| == n * n
    decreases i
  {
    if i <= 1 then u else RowStepBuf(n, b, RowsPassBuf(n, b, u, i - 1), i - 1)
  }

  lemma {:induction false} RowsPassBufView(n: nat, b: int, u: seq<real>, i: int)
    requires n >= 3 && |u| == n * n && i <= n - 1
    ensures View(n, RowsPassBuf(n, b, u, i)) == RowsPass(n, b, View(n, u), i)
    decreases i
  {
    if i > 1 {
      RowsPassBufView(n, b, u, i - 1);
      RowStepBufView(n, b, RowsPassBuf(n, b, u, i - 1), i - 1);
    }
  }

  /** One iteration of the second loop on the buffer. */
  function ColStepBuf(n: nat, b: int, u: seq<real>, j: int): (r: seq<real>)
    requires n >= 3 && |u| == n * n && 0 <= j < n
    ensures |r| == n * n
  {
    var u1 := u[IX(n, 0, j) := Reflect(b == XVelocity, u[IX(n, 1, j)])];
    u1[IX(n, n - 1, j) := Reflect(b == XVelocity, u1[IX(n, n - 2, j)])]
  }

  lemma ColStepBufView(n: nat, b: int, u: seq<real>, j: int)
    requires n >= 3 && |u| == n * n && 0 <= j < n
    ensures View(n, ColStepBuf(n, b, u, j)) == ColStep(n, b, View(n, u), j)
  {
    var v := Reflect(b == XVelocity, u[IX(n, 1, j)]);
    var u1 := u[IX(n, 0, j) := v];
    ViewUpdate(n, u, 0, j, v);
    ViewUpdate(n, u1, n - 1, j, Reflect(b == XVelocity, u1[IX(n, n - 2, j)]));
  }

  /** The second loop on the buffer, up to row `j`. */
  function ColsPassBuf(n: nat, b: int, u: seq<real>, j: int): (r: seq<real>)
    requires n >= 3 && |u| == n * n && j <= n - 1
    ensures |r| == n * n
    decreases j
  {
    if j <= 1 then u else ColStepBuf(n, b, ColsPassBuf(n, b, u, j - 1), j - 1)
  }

  lemma {:induction false} ColsPassBufView(n: nat, b: int, u: seq<real>, j: int)
    requires n >= 3 && |u| == n * n && j <= n - 1
    ensures View(n, ColsPassBuf(n, b, u, j)) == ColsPass(n, b, View(n, u), j)
    decreases j
  {
    if j > 1 {
      ColsPassBufView(n, b, u, j - 1);
      ColStepBufView(n, b, ColsPassBuf(n, b, u, j - 1), j - 1);
    }
  }

  /** A corner assignment on the buffer. */
  function AverageBuf(n: nat, u: seq<real>, x: int, y: int, x1: int, y1: int, x2: int, y2: int): (r: seq<real>)
    requires n >= 1 && |u| == n * n
    ensures |r| == n * n
  {
    u[IX(n, x, y) := 0.5 * (u[IX(n, x1, y1)] + u[IX(n, x2, y2)])]
  }

  lemma AverageBufView(n: nat, u: seq<real>, x: int, y: int, x1: int, y1: int, x2: int, y2: int)
    requires n >= 1 && |u| == n * n
    requires 0 <= x < n && 0 <= y < n && 0 <= x1 < n && 0 <= y1 < n && 0 <= x2 < n && 0 <= y2 < n
    ensures View(n, AverageBuf(n, u, x, y, x1, y1, x2, y2)) == Average(n, View(n, u), x, y, x1, y1, x2, y2)
  {
    ViewUpdate(n, u, x, y, 0.5 * (u[IX(n, x1, y1)] + u[IX(n, x2, y2)]));
  }

  /** The four corner assignments on the buffer. */
  function CornersPassBuf(n: nat, u: seq<real>): (r: seq<real>)
    requires n >= 3 && |u| == n * n
    ensures |r| == n * n
  {
    var u1 := AverageBuf(n, u, 0, 0, 1, 0, 0, 1);
    var u2 := AverageBuf(n, u1, 0, n - 1, 1, n - 1, 0, n - 2);
    var u3 := AverageBuf(n, u2, n - 1, 0, n - 2, 0, n - 1, 1);
    AverageBuf(n, u3, n - 1, n - 1, n - 2, n - 1, n - 1, n - 2)
  }

  lemma CornersPassBufView(n: nat, u: seq<real>)
    requires n >= 3 && |u| == n * n
    ensures View(n, CornersPassBuf(n, u)) == CornersPass(n, View(n, u))
  {
    var u1 := AverageBuf(n, u, 0, 0, 1, 0, 0, 1);
    var u2 := AverageBuf(n, u1, 0, n - 1, 1, n - 1, 0, n - 2);
    var u3 := AverageBuf(n, u2, n - 1, 0, n - 2, 0, n - 1, 1);
    AverageBufView(n, u, 0, 0, 1, 0, 0, 1);
    AverageBufView(n, u1, 0, n - 1, 1, n - 1, 0, n - 2);
    AverageBufView(n, u2, n - 1, 0, n - 2, 0, n - 1, 1);
    AverageBufView(n, u3, n - 1, n - 1, n - 2, n - 1, n - 1, n - 2);
  }

  /** `set_bnd` on the buffer, statement by statement. */
  function SetBndBuf(n: nat, b: int, u: seq<real>): (r: seq<real>)
    requires n >= 3 && |u| == n * n
    ensures |r| == n * n
  {
    CornersPassBuf(n, ColsPassBuf(n, b, RowsPassBuf(n, b, u, n - 1), n - 1))
  }

  /** After the two loops on the buffer, its view is the field after the two loops. */
  lemma LoopsPassBufView(n: nat, b: int, u: seq<real>)
    requires n >= 3 && |u| == n * n
    ensures View(n, ColsPassBuf(n, b, RowsPassBuf(n, b, u, n - 1), n - 1))
         == ColsPass(n, b, RowsPass(n, b, View(n, u), n - 1), n - 1)
  {
    RowsPassBufView(n, b, u, n - 1);
    ColsPassBufView(n, b, RowsPassBuf(n, b, u, n - 1), n - 1);
  }

  /** Running the statements of `set_bnd` on a buffer gives the buffer whose view is `WithBoundary`. */
  lemma SetBndBufView(n: nat, b: int, u: seq<real>)
    requires n >= 3 && |u| == n * n
    ensures View(n, SetBndBuf(n, b, u)) == WithBoundary(n, b, View(n, u))
  {
    LoopsPassBufView(n, b, u);
    CornersPassBufView(n, ColsPassBuf(n, b, RowsPassBuf(n, b, u, n - 1), n - 1));
    SetBndPassesCorrect(n, b, View(n, u));
  }
}
