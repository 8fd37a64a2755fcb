/** The firmware's 9x9 solver: Gauss-Jordan elimination with partial pivoting,
    in place on the coefficient matrix and the right-hand side. */
module GaussJordan {
  import opened Reals
  import opened LinearSystem

  /** Pivots smaller than this in magnitude make the solver give up. */
  const PIVOT_MIN := 1e-12

  /** The system held by a matrix and a right-hand side. */
  ghost function View(a: array2<real>, b: array<real>): (s: System)
    reads a, b
    requires a.Length0 == b.Length
    ensures |s| == b.Length && Wide(s, a.Length1)
    ensures forall r :: 0 <= r < b.Length ==> s[r].rhs == b[r]
    ensures forall r, c :: 0 <= r < b.Length && 0 <= c < a.Length1 ==> s[r].coef[c] == a[r, c]
  {
    seq(b.Length, r requires 0 <= r < b.Length reads a, b =>
      Equation(seq(a.Length1, c requires 0 <= c < a.Length1 reads a => a[r, c]), b[r]))
  }

  /** The row at or below `col` whose entry in that column is largest in magnitude. */
  method FindPivot(a: array2<real>, col: nat) returns (prow: nat, best: real)
    requires col < a.Length0 == a.Length1
    ensures col <= prow < a.Length0
    ensures best == Abs(a[prow, col])
    ensures forall r :: col <= r < a.Length0 ==> Abs(a[r, col]) <= best
  {
    prow := col;
    best := Abs(a[col, col]);
    for r := col + 1 to a.Length0
      invariant col <= prow < a.Length0
      invariant best == Abs(a[prow, col])
      invariant forall i :: col <= i < r ==> Abs(a[i, col]) <= best
    {
      var v := Abs(a[r, col]);
      if v > best {
        best := v;
        prow := r;
      }
    }
  }

  method SwapRows(a: array2<real>, b: array<real>, i: nat, j: nat)
    requires a.Length0 == a.Length1 == b.Length
    requires i < b.Length && j < b.Length && i != j
    modifies a, b
    ensures View(a, b) == Exchange(old(View(a, b)), i, j)
  {
    for c := 0 to a.Length1
      modifies a
      invariant forall k :: 0 <= k < c ==> a[i, k] == old(a[j, k]) && a[j, k] == old(a[i, k])
      invariant forall r, k :: 0 <= r < a.Length0 && 0 <= k < a.Length1 && ((r != i && r != j) || k >= c) ==>
                                 a[r, k] == old(a[r, k])
    {
      a[i, c], a[j, c] := a[j, c], a[i, c];
    }
    b[i], b[j] := b[j], b[i];
    SameEntries(View(a, b), Exchange(old(View(a, b)), i, j), a.Length1);
  }

  method ScalePivotRow(a: array2<real>, b: array<real>, i: nat, k: real)
    requires a.Length0 == a.Length1 == b.Length
    requires i < b.Length
    modifies a, b
    ensures View(a, b) == ScaleRow(old(View(a, b)), i, k)
  {
    for c := 0 to a.Length1
      modifies a
      invariant forall j :: 0 <= j < c ==> a[i, j] == old(a[i, j]) * k
      invariant forall r, j :: 0 <= r < a.Length0 && 0 <= j < a.Length1 && (r != i || j >= c) ==>
                                 a[r, j] == old(a[r, j])
    {
      a[i, c] := a[i, c] * k;
    }
    b[i] := b[i] * k;
    SameEntries(View(a, b), ScaleRow(old(View(a, b)), i, k), a.Length1);
  }

  method SubtractPivotRow(a: array2<real>, b: array<real>, r: nat, f: real, p: nat)
    requires a.Length0 == a.Length1 == b.Length
    requires r < b.Length && p < b.Length && r != p
    modifies a, b
    ensures View(a, b) == ReduceRow(old(View(a, b)), r, f, p)
  {
    for c := 0 to a.Length1
      modifies a
      invariant forall j :: 0 <= j < c ==> a[r, j] == old(a[r, j]) - f * old(a[p, j])
      invariant forall q, j :: 0 <= q < a.Length0 && 0 <= j < a.Length1 && (q != r || j >= c) ==>
                                 a[q, j] == old(a[q, j])
    {
      a[r, c] := a[r, c] - f * a[p, c];
    }
    b[r] := b[r] - f * b[p];
    SameEntries(View(a, b), ReduceRow(old(View(a, b)), r, f, p), a.Length1);
  }

  /** The first `k` columns are solved. */
  ghost predicate Solved(s: System, n: nat, k: nat)
    requires Wide(s, n) && k <= n
  {
    forall j :: 0 <= j < k ==> UnitColumn(s, n, j)
  }

  /** The vector elimination is left with when column `col` has no pivot. */
  function Leftover(t: System, n: nat, col: nat): (y: seq<real>)
    requires |t| == n && Wide(t, n) && col < n
    ensures |y| == n && y[col] == 1.0
  {
    seq(n, i requires 0 <= i < n => if i < col then -t[i].coef[col] else if i == col then 1.0 else 0.0)
  }

  /** Giving up: no usable pivot means that the system is nearly singular. */
  lemma NoPivot(s: System, t: System, n: nat, col: nat)
    requires |t| == n && Wide(t, n) && col < n && Solved(t, n, col) && Traces(s, t, col)
    requires forall r :: col <= r < n ==> Abs(t[r].coef[col]) < PIVOT_MIN
    ensures NearlySingular(s, n, PIVOT_MIN)
  {
    var y := Leftover(t, n, col);
    forall r | 0 <= r < n ensures Value(t[r], y) == (if r < col then 0.0 else t[r].coef[col]) {
      forall j | 0 <= j < col ensures t[r].coef[j] == (if j == r then 1.0 else 0.0) {
        assert UnitColumn(t, n, j);
      }
      DotTwo(t[r].coef, y, if r < col then r else col, col, n);
    }
    TracesBack(s, t, n, col, y, PIVOT_MIN);
  }

  /** Clears column `col` in every row but the pivot row. */
  method ClearColumn(a: array2<real>, b: array<real>, col: nat)
    requires a.Length0 == a.Length1 == b.Length && col < b.Length
    requires Solved(View(a, b), b.Length, col) && a[col, col] == 1.0
    modifies a, b
    ensures Equivalent(old(View(a, b)), View(a, b)) && Pivoted(old(View(a, b)), View(a, b), col)
    ensures Solved(View(a, b), b.Length, col + 1)
  {
    hide Equivalent, Pivoted;
    ghost var start := View(a, b);
    ghost var n := b.Length;
    ReflexiveSteps(start, col);
    for r := 0 to a.Length0
      invariant Equivalent(start, View(a, b)) && Pivoted(start, View(a, b), col)
      invariant Solved(View(a, b), n, col) && a[col, col] == 1.0
      invariant forall q :: 0 <= q < r && q != col ==> a[q, col] == 0.0
    {
      if r != col {
        ghost var s := View(a, b);
        var f := a[r, col];
        SubtractPivotRow(a, b, r, f, col);
        ReduceEquivalent(s, r, f, col);
        ReducePivoted(s, r, f, col);
        ComposedSteps(start, s, View(a, b), col);
        assert forall q :: 0 <= q < n && q != r ==> View(a, b)[q] == s[q];
        assert View(a, b)[r].coef[col] == s[r].coef[col] - f * s[col].coef[col];
        forall j | 0 <= j < col ensures UnitColumn(View(a, b), n, j) {
          assert UnitColumn(s, n, j);
          assert s[col].coef[j] == 0.0;
          assert View(a, b)[r].coef[j] == s[r].coef[j] - f * s[col].coef[j];
        }
      }
    }
    assert UnitColumn(View(a, b), n, col);
  }

  lemma SwapKeepsSolved(s: System, n: nat, i: nat, j: nat, k: nat)
    requires |s| == n && Wide(s, n) && k <= n && Solved(s, n, k)
    requires k <= i < n && k <= j < n
    ensures Wide(Exchange(s, i, j), n) && Solved(Exchange(s, i, j), n, k)
  {
    forall c | 0 <= c < k ensures UnitColumn(Exchange(s, i, j), n, c) {
      assert UnitColumn(s, n, c);
    }
  }

  lemma ScaleKeepsSolved(s: System, n: nat, i: nat, f: real, k: nat)
    requires |s| == n && Wide(s, n) && k <= i < n && Solved(s, n, k)
    ensures Wide(ScaleRow(s, i, f), n) && Solved(ScaleRow(s, i, f), n, k)
  {
    forall c | 0 <= c < k ensures UnitColumn(ScaleRow(s, i, f), n, c) {
      assert UnitColumn(s, n, c);
      assert s[i].coef[c] == 0.0;
    }
  }

  /** One outer iteration: pivots on column `col`, or reports that it cannot. */
  method PivotOn(a: array2<real>, b: array<real>, col: nat, ghost start: System) returns (ok: bool)
    requires a.Length0 == a.Length1 == b.Length && col < b.Length
    requires Solved(View(a, b), b.Length, col) && Equivalent(start, View(a, b)) && Traces(start, View(a, b), col)
    modifies a, b
    ensures Equivalent(start, View(a, b))
    ensures ok ==> Solved(View(a, b), b.Length, col + 1) && Traces(start, View(a, b), col + 1)
    ensures !ok ==> View(a, b) == old(View(a, b))
    ensures !ok ==> forall r :: col <= r < b.Length ==> Abs(View(a, b)[r].coef[col]) < PIVOT_MIN
  {
    hide Equivalent, Pivoted, Traces;
    ghost var n := b.Length;
    var prow, best := FindPivot(a, col);
    if best < PIVOT_MIN {
      return false;
    }
    ghost var s0 := View(a, b);
    if prow != col {
      SwapRows(a, b, col, prow);
      ExchangeEquivalent(s0, col, prow);
      SameSolutions(start, s0, View(a, b));
      TracesExchange(start, s0, col, col, prow);
      SwapKeepsSolved(s0, n, col, prow, col);
    }
    ghost var s1 := View(a, b);
    assert s1[col].coef[col] == s0[prow].coef[col];
    var invd := 1.0 / a[col, col];
    ScalePivotRow(a, b, col, invd);
    ScaleEquivalent(s1, col, invd);
    ScalePivoted(s1, col, invd);
    ScaleKeepsSolved(s1, n, col, invd, col);
    ghost var s2 := View(a, b);
    assert s2[col].coef[col] == s1[col].coef[col] * invd == 1.0;
    ClearColumn(a, b, col);
    ComposedSteps(s1, s2, View(a, b), col);
    SameSolutions(start, s1, View(a, b));
    TracesPivot(start, s1, View(a, b), col);
    return true;
  }

  /** Solves `a x = b`, destroying both.  Success means the answer is the one
      and only solution of the system as given; failure means that the matrix as
      given is nearly singular: it takes some vector with a unit entry to less
      than the smallest pivot.  The firmware calls it with n = 9. */
  method Solve(a: array2<real>, b: array<real>, x: array<real>) returns (ok: bool)
    requires a.Length0 == a.Length1 == b.Length == x.Length > 0
    requires b != x
    modifies a, b, x
    ensures ok ==> UniquelySolves(old(View(a, b)), x[..])
    ensures !ok ==> NearlySingular(old(View(a, b)), b.Length, 1e-12) && x[..] == old(x[..])
  {
    hide Traces, NearlySingular;
    ghost var start := View(a, b);
    TracesStart(start);
    for col := 0 to b.Length
      modifies a, b
      invariant Equivalent(start, View(a, b)) && Traces(start, View(a, b), col)
      invariant Solved(View(a, b), b.Length, col)
    {
      var pivoted := PivotOn(a, b, col, start);
      if !pivoted {
        NoPivot(start, View(a, b), b.Length, col);
        return false;
      }
    }
    IdentitySolved(View(a, b), b.Length);
    for i := 0 to b.Length
      modifies x
      invariant forall k :: 0 <= k < i ==> x[k] == b[k]
    {
      x[i] := b[i];
    }
    assert x[..] == Rhs(View(a, b));
    return true;
  }
}
