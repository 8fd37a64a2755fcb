/** The host tool's dense solver: elimination with partial pivoting on the
    augmented matrix, without scaling the pivot rows. */
module SymSolve {
  import opened Reals
  import opened LinearSystem

  /** Pivots smaller than this in magnitude make the solver give up. */
  const PIVOT_MIN := 1e-300

  /** The system held by an augmented matrix: the last column is the right-hand side. */
  ghost function View(a: array2<real>): (s: System)
    reads a
    requires a.Length1 == a.Length0 + 1
    ensures |s| == a.Length0 && Wide(s, a.Length0)
    ensures forall r :: 0 <= r < a.Length0 ==> s[r].rhs == a[r, a.Length0]
    ensures forall r, c :: 0 <= r < a.Length0 && 0 <= c < a.Length0 ==> s[r].coef[c] == a[r, c]
  {
    seq(a.Length0, r requires 0 <= r < a.Length0 reads a =>
      Equation(seq(a.Length0, c requires 0 <= c < a.Length0 reads a => a[r, c]), a[r, a.Length0]))
  }

  /** Column `j` is zero off the diagonal and not on it. */
  ghost predicate PivotColumn(s: System, n: nat, j: nat)
    requires Wide(s, n) && j < n
  {
    forall r :: 0 <= r < |s| ==> (s[r].coef[j] != 0.0 <==> r == j)
  }

  ghost predicate Cleared(s: System, n: nat, k: nat)
    requires Wide(s, n) && k <= n
  {
    forall j :: 0 <= j < k ==> PivotColumn(s, n, j)
  }

  /** The row at or below `col` with the largest entry in that column; the first
      such row, as `max` returns it. */
  method FindPivot(a: array2<real>, col: nat) returns (piv: nat)
    requires col < a.Length0 < a.Length1
    ensures col <= piv < a.Length0
    ensures forall r :: col <= r < a.Length0 ==> Abs(a[r, col]) <= Abs(a[piv, col])
    ensures forall r :: col <= r < piv ==> Abs(a[r, col]) < Abs(a[piv, col])
  {
    piv := col;
    for r := col + 1 to a.Length0
      invariant col <= piv < r
      invariant forall i :: col <= i < r ==> Abs(a[i, col]) <= Abs(a[piv, col])
      invariant forall i :: col <= i < piv ==> Abs(a[i, col]) < Abs(a[piv, col])
    {
      if Abs(a[r, col]) > Abs(a[piv, col]) {
        piv := r;
      }
    }
  }

  method SwapRows(a: array2<real>, i: nat, j: nat)
    requires a.Length1 == a.Length0 + 1 && i < a.Length0 && j < a.Length0
    modifies a
    ensures View(a) == Exchange(old(View(a)), i, j)
  {
    for c := 0 to a.Length1
      invariant forall k :: 0 <= k < c ==> a[i, k] == old(a[j, k]) && a[j, k] == old(a[i, k])
      invariant forall r, k :: 0 <= r < a.Length0 && 0 <= k < a.Length1 && ((r != i && r != j) || k >= c) ==>
                                 a[r, k] == old(a[r, k])
    {
      a[i, c], a[j, c] := a[j, c], a[i, c];
    }
    SameEntries(View(a), Exchange(old(View(a)), i, j), a.Length0);
  }

  /** Subtracts a multiple of the pivot row from column `col` on; the columns
      before it are zero in the pivot row, so this is the whole row operation. */
  method SubtractFrom(a: array2<real>, r: nat, f: real, col: nat)
    requires a.Length1 == a.Length0 + 1 && r < a.Length0 && col < a.Length0 && r != col
    requires forall c :: 0 <= c < col ==> a[col, c] == 0.0
    modifies a
    ensures View(a) == ReduceRow(old(View(a)), r, f, col)
  {
    for c := col to a.Length1
      invariant forall j :: col <= j < c ==> a[r, j] == old(a[r, j]) - f * old(a[col, j])
      invariant forall q, j :: 0 <= q < a.Length0 && 0 <= j < a.Length1 && (q != r || j < col || j >= c) ==>
                                 a[q, j] == old(a[q, j])
    {
      a[r, c] := a[r, c] - f * a[col, c];
    }
    SameEntries(View(a), ReduceRow(old(View(a)), r, f, col), a.Length0);
  }

  lemma ReduceKeepsCleared(s: System, n: nat, r: nat, f: real, col: nat)
    requires |s| == n && Wide(s, n) && r < n && col < n && r != col && Cleared(s, n, col)
    ensures var t := ReduceRow(s, r, f, col); Wide(t, n) && Cleared(t, n, col)
  {
    var t := ReduceRow(s, r, f, col);
    forall j | 0 <= j < col ensures PivotColumn(t, n, j) {
      assert PivotColumn(s, n, j);
      assert s[col].coef[j] == 0.0;
      assert t[r].coef[j] == s[r].coef[j] - f * 0.0;
    }
  }

  lemma SwapKeepsCleared(s: System, n: nat, i: nat, j: nat, k: nat)
    requires |s| == n && Wide(s, n) && k <= n && Cleared(s, n, k) && k <= i < n && k <= j < n
    ensures Wide(Exchange(s, i, j), n) && Cleared(Exchange(s, i, j), n, k)
  {
    forall c | 0 <= c < k ensures PivotColumn(Exchange(s, i, j), n, c) {
      assert PivotColumn(s, n, c);
    }
  }

  /** Before the pivot, the pivot row is zero. */
  lemma PivotRowZero(s: System, n: nat, col: nat)
    requires |s| == n && Wide(s, n) && col < n && Cleared(s, n, col)
    ensures forall c :: 0 <= c < col ==> s[col].coef[c] == 0.0
  {
    forall c | 0 <= c < col ensures s[col].coef[c] == 0.0 {
      assert PivotColumn(s, n, c);
    }
  }

  lemma Eliminated(x: real, pv: real)
    requires pv != 0.0
    ensures x - x / pv * pv == 0.0
    ensures x / pv == 0.0 ==> x == 0.0
  {
    assert x / pv * pv == x;
  }

  /** Clears column `col` in every other row. */
  method ClearColumn(a: array2<real>, col: nat)
    requires a.Length1 == a.Length0 + 1 && col < a.Length0
    requires Cleared(View(a), a.Length0, col) && a[col, col] != 0.0
    modifies a
    ensures Equivalent(old(View(a)), View(a)) && Pivoted(old(View(a)), View(a), col)
    ensures Cleared(View(a), a.Length0, col + 1)
  {
    hide Equivalent, Pivoted;
    ghost var start, n := View(a), a.Length0;
    ReflexiveSteps(start, col);
    var pv := a[col, col];
    for r := 0 to a.Length0
      invariant Equivalent(start, View(a)) && Pivoted(start, View(a), col)
      invariant Cleared(View(a), n, col) && a[col, col] == pv
      invariant forall q :: 0 <= q < r && q != col ==> a[q, col] == 0.0
    {
      ghost var s := View(a);
      if r != col {
        var f := a[r, col] / pv;
        Eliminated(a[r, col], pv);
        if f != 0.0 {
          PivotRowZero(s, n, col);
          assert forall c :: 0 <= c < col ==> a[col, c] == s[col].coef[c];
          SubtractFrom(a, r, f, col);
          ReduceEquivalent(s, r, f, col);
          ReducePivoted(s, r, f, col);
          ComposedSteps(start, s, View(a), col);
          ReduceKeepsCleared(s, n, r, f, col);
          assert forall q :: 0 <= q < n && q != r ==> View(a)[q] == s[q];
          assert View(a)[r].coef[col] == s[r].coef[col] - f * s[col].coef[col];
        }
      }
    }
    assert PivotColumn(View(a), n, col);
  }

  method PivotOn(a: array2<real>, col: nat, ghost start: System) returns (ok: bool)
    requires a.Length1 == a.Length0 + 1 && col < a.Length0
    requires Cleared(View(a), a.Length0, col) && Equivalent(start, View(a)) && Traces(start, View(a), col)
    modifies a
    ensures Equivalent(start, View(a))
    ensures ok ==> Cleared(View(a), a.Length0, col + 1) && Traces(start, View(a), col + 1)
    ensures !ok ==> View(a) == old(View(a))
    ensures !ok ==> forall r :: col <= r < a.Length0 ==> Abs(View(a)[r].coef[col]) < PIVOT_MIN
  {
    hide Equivalent, Pivoted, Traces;
    var piv := FindPivot(a, col);
    if Abs(a[piv, col]) < PIVOT_MIN {
      return false;
    }
    ghost var s := View(a);
    assert s[piv].coef[col] != 0.0;
    SwapRows(a, col, piv);
    ExchangeEquivalent(s, col, piv);
    SwapKeepsCleared(s, a.Length0, col, piv, col);
    ghost var t := View(a);
    assert t[col].coef[col] == s[piv].coef[col];
    SameSolutions(start, s, t);
    TracesExchange(start, s, col, col, piv);
    ClearColumn(a, col);
    SameSolutions(start, t, View(a));
    TracesPivot(start, t, View(a), col);
    return true;
  }

  lemma {:induction false} DotSingle(u: seq<real>, x: seq<real>, j: nat, n: nat)
    requires n <= |u| == |x| && j < |u|
    requires forall i :: 0 <= i < n && i != j ==> u[i] == 0.0
    ensures DotTo(u, x, n) == (if j < n then u[j] * x[j] else 0.0)
  {
    if n > 0 {
      DotSingle(u, x, j, n - 1);
    }
  }

  function Quotients(s: System): seq<real>
    requires Wide(s, |s|) && forall r :: 0 <= r < |s| ==> s[r].coef[r] != 0.0
  {
    seq(|s|, r requires 0 <= r < |s| => s[r].rhs / s[r].coef[r])
  }

  lemma Divided(c: real, q: real, b: real)
    requires c != 0.0
    ensures c * q == b <==> q == b / c
  {
    if c * q == b {
      assert b / c * c == b;
      assert (q - b / c) * c == 0.0;
    }
  }

  lemma RowSolved(s: System, n: nat, x: seq<real>, r: nat)
    requires |s| == n && Wide(s, n) && Cleared(s, n, n) && |x| == n && r < n
    ensures s[r].coef[r] != 0.0 && (Satisfies(s[r], x) <==> x[r] == s[r].rhs / s[r].coef[r])
  {
    forall i | 0 <= i < n ensures s[r].coef[i] != 0.0 <==> i == r {
      assert PivotColumn(s, n, i);
    }
    DotSingle(s[r].coef, x, r, n);
    Divided(s[r].coef[r], x[r], s[r].rhs);
  }

  /** A system cleared to its diagonal has the quotients as its only solution. */
  lemma DiagonalSolved(s: System, n: nat)
    requires |s| == n && n > 0 && Wide(s, n) && Cleared(s, n, n)
    ensures (forall r :: 0 <= r < n ==> s[r].coef[r] != 0.0) && UniquelySolves(s, Quotients(s))
  {
    forall r | 0 <= r < n ensures s[r].coef[r] != 0.0 {
      assert PivotColumn(s, n, r);
    }
    var x := Quotients(s);
    forall r | 0 <= r < n ensures Satisfies(s[r], x) {
      RowSolved(s, n, x, r);
    }
    forall y: seq<real> | Solves(s, y) ensures y == x {
      assert Satisfies(s[0], y);
      forall r | 0 <= r < n ensures y[r] == x[r] {
        assert Satisfies(s[r], y);
        RowSolved(s, n, y, r);
      }
    }
  }

  /** The vector elimination is left with when column `col` has no pivot. */
  function Leftover(t: System, n: nat, col: nat): (y: seq<real>)
    requires |t| == n && Wide(t, n) && col < n && forall i :: 0 <= i < col ==> t[i].coef[i] != 0.0
    ensures |y| == n && y[col] == 1.0
  {
    seq(n, i requires 0 <= i < n =>
      if i < col then -(t[i].coef[col] / t[i].coef[i]) else if i == col then 1.0 else 0.0)
  }

  lemma Cancels(p: real, x: real)
    requires p != 0.0
    ensures p * -(x / p) + x * 1.0 == 0.0
  {
    assert x / p * p == x;
  }

  /** Giving up: no usable pivot means that the system is nearly singular. */
  lemma NoPivot(s: System, t: System, n: nat, col: nat)
    requires |t| == n && Wide(t, n) && col < n && Cleared(t, n, col) && Traces(s, t, col)
    requires forall r :: col <= r < n ==> Abs(t[r].coef[col]) < PIVOT_MIN
    ensures NearlySingular(s, n, PIVOT_MIN)
  {
    forall j, r | 0 <= j < col && 0 <= r < n ensures t[r].coef[j] != 0.0 <==> j == r {
      assert PivotColumn(t, n, j);
    }
    var y := Leftover(t, n, col);
    forall r | 0 <= r < n ensures Value(t[r], y) == (if r < col then 0.0 else t[r].coef[col]) {
      DotTwo(t[r].coef, y, if r < col then r else col, col, n);
      if r < col {
        Cancels(t[r].coef[r], t[r].coef[col]);
      }
    }
    TracesBack(s, t, n, col, y, PIVOT_MIN);
  }

  datatype Answer = None | Some(x: seq<real>)

  /** Solves the system in place: an answer is its one and only solution, and
      none means that the matrix as given is nearly singular. */
  method SolveSym(a: array2<real>) returns (r: Answer)
    requires a.Length0 > 0 && a.Length1 == a.Length0 + 1
    modifies a
    ensures r.Some? ==> UniquelySolves(old(View(a)), r.x)
    ensures r.None? ==> NearlySingular(old(View(a)), a.Length0, 1e-300)
  {
    hide Traces, NearlySingular;
    ghost var start, n := View(a), a.Length0;
    TracesStart(start);
    for col := 0 to a.Length0
      invariant Equivalent(start, View(a)) && Cleared(View(a), n, col) && Traces(start, View(a), col)
    {
      var ok := PivotOn(a, col, start);
      if !ok {
        NoPivot(start, View(a), n, col);
        return None;
      }
    }
    DiagonalSolved(View(a), n);
    var x: seq<real> := [];
    for i := 0 to a.Length0
      invariant |x| == i && forall k :: 0 <= k < i ==> x[k] == View(a)[k].rhs / View(a)[k].coef[k]
    {
      x := x + [a[i, a.Length0] / a[i, i]];
    }
    assert x == Quotients(View(a));
    return Some(x);
  }
}
