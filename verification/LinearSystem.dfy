/** Systems of linear equations over the reals, and the three elementary row
    operations.  Both elimination routines of the repository (the firmware's
    9x9 Gauss-Jordan solver and the host tool's normal-equation solver) are
    proved against this one notion of a solution set. */
module LinearSystem {
  import opened Reals

  datatype Equation = Equation(coef: seq<real>, rhs: real)

  type System = seq<Equation>

  function DotTo(u: seq<real>, v: seq<real>, k: nat): real
    requires k <= |u| && k <= |v|
  {
    if k == 0 then 0.0 else DotTo(u, v, k - 1) + u[k - 1] * v[k - 1]
  }

  function Dot(u: seq<real>, v: seq<real>): real
    requires |u| == |v|
  {
    DotTo(u, v, |u|)
  }

  /** Every equation has `n` coefficients. */
  ghost predicate Wide(s: System, n: nat) {
    forall r :: 0 <= r < |s| ==> |s[r].coef| == n
  }

  ghost predicate Satisfies(e: Equation, x: seq<real>) {
    |e.coef| == |x| && Dot(e.coef, x) == e.rhs
  }

  ghost predicate Solves(s: System, x: seq<real>) {
    forall r :: 0 <= r < |s| ==> Satisfies(s[r], x)
  }

  /** The two systems have the same solution set. */
  ghost predicate Equivalent(s: System, t: System) {
    forall x: seq<real> :: Solves(s, x) <==> Solves(t, x)
  }

  /** `x` is the one and only solution. */
  ghost predicate UniquelySolves(s: System, x: seq<real>) {
    Solves(s, x) && forall y: seq<real> :: Solves(s, y) ==> y == x
  }

  // ----- elementary row operations

  function Scaled(e: Equation, k: real): Equation {
    Equation(seq(|e.coef|, i requires 0 <= i < |e.coef| => e.coef[i] * k), e.rhs * k)
  }

  function Reduced(e: Equation, f: real, p: Equation): Equation
    requires |e.coef| == |p.coef|
  {
    Equation(seq(|e.coef|, i requires 0 <= i < |e.coef| => e.coef[i] - f * p.coef[i]), e.rhs - f * p.rhs)
  }

  function Exchange(s: System, i: nat, j: nat): System
    requires i < |s| && j < |s|
  {
    s[i := s[j]][j := s[i]]
  }

  function ScaleRow(s: System, i: nat, k: real): System
    requires i < |s|
  {
    s[i := Scaled(s[i], k)]
  }

  function ReduceRow(s: System, r: nat, f: real, p: nat): System
    requires r < |s| && p < |s| && |s[r].coef| == |s[p].coef|
  {
    s[r := Reduced(s[r], f, s[p])]
  }

  lemma {:induction false} DotScaled(u: seq<real>, w: seq<real>, k: real, x: seq<real>, n: nat)
    requires n <= |u| == |w| == |x|
    requires forall i :: 0 <= i < n ==> w[i] == u[i] * k
    ensures DotTo(w, x, n) == DotTo(u, x, n) * k
  {
    if n > 0 {
      DotScaled(u, w, k, x, n - 1);
      assert w[n - 1] * x[n - 1] == u[n - 1] * x[n - 1] * k;
    }
  }

  lemma {:induction false} DotReduced(u: seq<real>, p: seq<real>, w: seq<real>, f: real, x: seq<real>, n: nat)
    requires n <= |u| == |p| == |w| == |x|
    requires forall i :: 0 <= i < n ==> w[i] == u[i] - f * p[i]
    ensures DotTo(w, x, n) == DotTo(u, x, n) - f * DotTo(p, x, n)
  {
    if n > 0 {
      DotReduced(u, p, w, f, x, n - 1);
      assert w[n - 1] * x[n - 1] == u[n - 1] * x[n - 1] - f * (p[n - 1] * x[n - 1]);
    }
  }

  lemma {:induction false} DotUnit(u: seq<real>, x: seq<real>, j: nat, n: nat)
    requires n <= |u| == |x| && j < |u|
    requires forall i :: 0 <= i < n ==> u[i] == (if i == j then 1.0 else 0.0)
    ensures DotTo(u, x, n) == (if j < n then x[j] else 0.0)
  {
    if n > 0 {
      DotUnit(u, x, j, n - 1);
    }
  }

  lemma ExchangeEquivalent(s: System, i: nat, j: nat)
    requires i < |s| && j < |s|
    ensures Equivalent(s, Exchange(s, i, j))
  {
    var t := Exchange(s, i, j);
    forall x: seq<real>
      ensures Solves(s, x) <==> Solves(t, x)
    {
      if Solves(t, x) {
        assert Satisfies(t[i], x) && Satisfies(t[j], x);
        forall r | 0 <= r < |s| ensures Satisfies(s[r], x) {
          assert Satisfies(t[r], x);
        }
      }
    }
  }

  lemma ScaledSatisfies(e: Equation, k: real, x: seq<real>)
    requires k != 0.0
    ensures Satisfies(Scaled(e, k), x) <==> Satisfies(e, x)
  {
    if |x| == |e.coef| {
      DotScaled(e.coef, Scaled(e, k).coef, k, x, |x|);
      if Dot(e.coef, x) * k == e.rhs * k {
        assert (Dot(e.coef, x) - e.rhs) * k == 0.0;
      }
    }
  }

  lemma ScaleEquivalent(s: System, i: nat, k: real)
    requires i < |s| && k != 0.0
    ensures Equivalent(s, ScaleRow(s, i, k))
  {
    var t := ScaleRow(s, i, k);
    forall x: seq<real>
      ensures Solves(s, x) <==> Solves(t, x)
    {
      ScaledSatisfies(s[i], k, x);
      if Solves(t, x) {
        forall r | 0 <= r < |s| ensures Satisfies(s[r], x) {
          assert Satisfies(t[r], x);
        }
      }
    }
  }

  lemma ReducedSatisfies(e: Equation, f: real, p: Equation, x: seq<real>)
    requires |e.coef| == |p.coef|
    requires Satisfies(p, x)
    ensures Satisfies(Reduced(e, f, p), x) <==> Satisfies(e, x)
  {
    DotReduced(e.coef, p.coef, Reduced(e, f, p).coef, f, x, |x|);
  }

  lemma ReduceEquivalent(s: System, r: nat, f: real, p: nat)
    requires r < |s| && p < |s| && r != p && |s[r].coef| == |s[p].coef|
    ensures Equivalent(s, ReduceRow(s, r, f, p))
  {
    var t := ReduceRow(s, r, f, p);
    assert t[p] == s[p];
    forall x: seq<real>
      ensures Solves(s, x) <==> Solves(t, x)
    {
      if Satisfies(s[p], x) {
        ReducedSatisfies(s[r], f, s[p], x);
      }
      if Solves(t, x) {
        assert Satisfies(t[p], x);
        forall q | 0 <= q < |s| ensures Satisfies(s[q], x) {
          assert Satisfies(t[q], x);
        }
      }
    }
  }

  // ----- solved columns

  /** Column `j` is the j-th column of the identity. */
  ghost predicate UnitColumn(s: System, n: nat, j: nat)
    requires Wide(s, n) && j < n
  {
    forall r :: 0 <= r < |s| ==> s[r].coef[j] == (if r == j then 1.0 else 0.0)
  }

  function Rhs(s: System): seq<real> {
    seq(|s|, r requires 0 <= r < |s| => s[r].rhs)
  }

  /** A square system in identity form has its right-hand side as its only solution. */
  lemma IdentitySolved(s: System, n: nat)
    requires |s| == n && n > 0 && Wide(s, n)
    requires forall j :: 0 <= j < n ==> UnitColumn(s, n, j)
    ensures UniquelySolves(s, Rhs(s))
  {
    forall x: seq<real> | |x| == n, r | 0 <= r < n
      ensures Dot(s[r].coef, x) == x[r]
    {
      forall i | 0 <= i < n ensures s[r].coef[i] == (if i == r then 1.0 else 0.0) {
        assert UnitColumn(s, n, i);
      }
      DotUnit(s[r].coef, x, r, n);
    }
    forall y: seq<real> | Solves(s, y) ensures y == Rhs(s) {
      assert Satisfies(s[0], y);
      forall r | 0 <= r < n ensures |y| == n && y[r] == s[r].rhs {
        assert Satisfies(s[r], y);
      }
    }
  }

  /** Two systems of the same shape with the same entries are the same system. */
  lemma SameEntries(s: System, t: System, n: nat)
    requires |s| == |t| && Wide(s, n) && Wide(t, n)
    requires forall r :: 0 <= r < |s| ==> s[r].rhs == t[r].rhs
    requires forall r, c :: 0 <= r < |s| && 0 <= c < n ==> s[r].coef[c] == t[r].coef[c]
    ensures s == t
  {
    forall r | 0 <= r < |s| ensures s[r] == t[r] {
      assert s[r].coef == t[r].coef;
    }
  }

  // ----- systems that are nearly singular

  /** The left-hand side of an equation at `y`. */
  function Value(e: Equation, y: seq<real>): real {
    if |e.coef| == |y| then Dot(e.coef, y) else 0.0
  }

  /** Some vector with a unit entry is taken by every left-hand side to less than
      `eps` in magnitude. */
  ghost predicate NearlySingular(s: System, n: nat, eps: real) {
    exists y: seq<real>, col: nat :: |y| == n && col < n && y[col] == 1.0 && Small(s, y, eps)
  }

  ghost predicate Small(s: System, y: seq<real>, eps: real) {
    forall r :: 0 <= r < |s| ==> Abs(Value(s[r], y)) < eps
  }

  /** `y` is taken to zero by the first `k` left-hand sides. */
  ghost predicate Zeroes(t: System, k: nat, y: seq<real>)
    requires k <= |t|
  {
    forall i :: 0 <= i < k ==> Value(t[i], y) == 0.0
  }

  /** Where `t`, from row `k` on, takes the value `v`. */
  ghost predicate Shown(t: System, k: nat, y: seq<real>, v: real) {
    v == 0.0 || exists q :: k <= q < |t| && Value(t[q], y) == v
  }

  /** On whatever zeroes the first `k` rows of `t`, the rows of `s` have no values
      but zero and those of the remaining rows of `t`. */
  ghost predicate Traces(s: System, t: System, k: nat)
    requires k <= |t|
  {
    forall y: seq<real>, r :: Zeroes(t, k, y) && 0 <= r < |s| ==> Shown(t, k, y, Value(s[r], y))
  }

  lemma TracesStart(s: System)
    ensures Traces(s, s, 0)
  {}

  lemma TracesExchange(s: System, t: System, k: nat, i: nat, j: nat)
    requires k <= i < |t| && k <= j < |t| && Traces(s, t, k)
    ensures Traces(s, Exchange(t, i, j), k)
  {
    var u := Exchange(t, i, j);
    forall y: seq<real>, r | Zeroes(u, k, y) && 0 <= r < |s| ensures Shown(u, k, y, Value(s[r], y)) {
      assert forall q :: 0 <= q < k ==> u[q] == t[q];
      assert Zeroes(t, k, y);
      var v := Value(s[r], y);
      assert Shown(t, k, y, v);
      if v != 0.0 {
        var q :| k <= q < |t| && Value(t[q], y) == v;
        assert Value(u[if q == i then j else if q == j then i else q], y) == v;
      }
    }
  }

  /** Wherever row `p` of `u` is zero, so is that of `t`, and the other rows of
      the two agree. */
  ghost predicate Pivoted(t: System, u: System, p: nat)
    requires p < |t| == |u|
  {
    forall y: seq<real> :: Value(u[p], y) == 0.0 ==> Agree(t, u, y)
  }

  ghost predicate Agree(t: System, u: System, y: seq<real>)
    requires |t| == |u|
  {
    forall r :: 0 <= r < |t| ==> Value(u[r], y) == Value(t[r], y)
  }

  lemma PivotedOn(t: System, u: System, w: System, p: nat)
    requires p < |t| == |u| == |w| && Pivoted(t, u, p) && Pivoted(u, w, p)
    ensures Pivoted(t, w, p)
  {
    hide Value;
    forall y: seq<real> | Value(w[p], y) == 0.0 ensures Agree(t, w, y) {
      assert Agree(u, w, y);
      assert Agree(t, u, y);
    }
  }

  lemma SameSolutions(s: System, t: System, u: System)
    requires Equivalent(s, t) && Equivalent(t, u)
    ensures Equivalent(s, u)
  {
    hide Solves;
  }

  /** What composes along a sequence of row operations on the pivot row `p`. */
  lemma ComposedSteps(t: System, u: System, w: System, p: nat)
    requires p < |t| == |u| == |w|
    requires Equivalent(t, u) && Equivalent(u, w) && Pivoted(t, u, p) && Pivoted(u, w, p)
    ensures Equivalent(t, w) && Pivoted(t, w, p)
  {
    SameSolutions(t, u, w);
    PivotedOn(t, u, w, p);
  }

  lemma ReflexiveSteps(t: System, p: nat)
    requires p < |t|
    ensures Equivalent(t, t) && Pivoted(t, t, p)
  {}

  lemma ScalePivoted(t: System, p: nat, k: real)
    requires p < |t| && k != 0.0
    ensures Pivoted(t, ScaleRow(t, p, k), p)
  {
    var u := ScaleRow(t, p, k);
    forall y: seq<real> | Value(u[p], y) == 0.0 ensures Agree(t, u, y) {
      if |y| == |t[p].coef| {
        DotScaled(t[p].coef, u[p].coef, k, y, |y|);
      }
    }
  }

  lemma ReducePivoted(t: System, r: nat, f: real, p: nat)
    requires r < |t| && p < |t| && r != p && |t[r].coef| == |t[p].coef|
    ensures Pivoted(t, ReduceRow(t, r, f, p), p)
  {
    var u := ReduceRow(t, r, f, p);
    forall y: seq<real> | Value(u[p], y) == 0.0 ensures Agree(t, u, y) {
      if |y| == |t[r].coef| {
        DotReduced(t[r].coef, t[p].coef, u[r].coef, f, y, |y|);
      }
    }
  }

  /** Pivoting on row `k` leaves one row fewer to account for. */
  lemma TracesPivot(s: System, t: System, u: System, k: nat)
    requires k < |t| == |u| && Traces(s, t, k) && Pivoted(t, u, k)
    ensures Traces(s, u, k + 1)
  {
    hide Value;
    forall y: seq<real>, r | Zeroes(u, k + 1, y) && 0 <= r < |s| ensures Shown(u, k + 1, y, Value(s[r], y)) {
      assert Agree(t, u, y);
      assert Zeroes(t, k, y);
      var v := Value(s[r], y);
      assert Shown(t, k, y, v);
      if v != 0.0 {
        var q :| k <= q < |t| && Value(t[q], y) == v;
        assert Value(u[q], y) == v;
      }
    }
  }

  /** A vector that zeroes the first rows and makes the rest small shows that the
      system elimination started from is nearly singular. */
  lemma TracesBack(s: System, t: System, n: nat, col: nat, y: seq<real>, eps: real)
    requires col < n == |t| && Traces(s, t, col) && eps > 0.0
    requires |y| == n && y[col] == 1.0 && Zeroes(t, col, y)
    requires forall q :: col <= q < n ==> Abs(Value(t[q], y)) < eps
    ensures NearlySingular(s, n, eps)
  {
    hide Value;
    forall r | 0 <= r < |s| ensures Abs(Value(s[r], y)) < eps {
      assert Shown(t, col, y, Value(s[r], y));
    }
    assert Small(s, y, eps);
  }

  /** All but the diagonal entry, up to `col`, and what follows drop out. */
  lemma {:induction false} DotTwo(u: seq<real>, y: seq<real>, i: nat, col: nat, n: nat)
    requires n <= |u| == |y| && i <= col < |u|
    requires forall j :: 0 <= j < n && j < col && j != i ==> u[j] == 0.0
    requires forall j :: col < j < n ==> y[j] == 0.0
    ensures DotTo(u, y, n) ==
      (if i < n && i < col then u[i] * y[i] else 0.0) + (if col < n then u[col] * y[col] else 0.0)
  {
    if n > 0 {
      DotTwo(u, y, i, col, n - 1);
    }
  }

  /** Not every system is nearly singular: one in identity form never is. */
  lemma IdentityNotSingular(s: System, n: nat, eps: real)
    requires |s| == n && Wide(s, n) && eps <= 1.0 && forall j :: 0 <= j < n ==> UnitColumn(s, n, j)
    ensures !NearlySingular(s, n, eps)
  {
    forall y: seq<real>, col: nat | |y| == n && col < n && y[col] == 1.0 ensures !Small(s, y, eps) {
      forall i | 0 <= i < n ensures s[col].coef[i] == (if i == col then 1.0 else 0.0) {
        assert UnitColumn(s, n, i);
      }
      DotUnit(s[col].coef, y, col, n);
      assert Abs(Value(s[col], y)) == 1.0;
    }
  }

  lemma {:induction false} DotSum(u: seq<real>, x: seq<real>, y: seq<real>, z: seq<real>, n: nat)
    requires n <= |u| == |x| == |y| == |z| && forall i :: 0 <= i < n ==> z[i] == x[i] + y[i]
    ensures DotTo(u, z, n) == DotTo(u, x, n) + DotTo(u, y, n)
  {
    if n > 0 {
      DotSum(u, x, y, z, n - 1);
      assert u[n - 1] * z[n - 1] == u[n - 1] * x[n - 1] + u[n - 1] * y[n - 1];
    }
  }

  /** What that means for whoever wanted a solution: an entry of it can move by
      one while no equation is off by as much as `eps`. */
  lemma Unsettled(s: System, n: nat, eps: real, x: seq<real>) returns (z: seq<real>, col: nat)
    requires NearlySingular(s, n, eps) && Wide(s, n) && |x| == n && Solves(s, x)
    ensures |z| == n && col < n && z[col] == x[col] + 1.0
    ensures forall r :: 0 <= r < |s| ==> Abs(Value(s[r], z) - s[r].rhs) < eps
  {
    var y;
    y, col :| |y| == n && col < n && y[col] == 1.0 && Small(s, y, eps);
    z := seq(n, i requires 0 <= i < n => x[i] + y[i]);
    forall r | 0 <= r < |s| ensures Abs(Value(s[r], z) - s[r].rhs) < eps {
      assert Satisfies(s[r], x);
      DotSum(s[r].coef, x, y, z, n);
      assert Abs(Value(s[r], y)) < eps;
    }
  }
}
