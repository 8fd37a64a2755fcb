/** The inner fit of the output-error identification: for a fixed pole the model
    is linear in four coefficients, and least squares is solved exactly through
    the normal equations. */
module LeastSquares {
  import opened Reals
  import opened LinearSystem
  import SymSolve

  // ----- sums over samples

  lemma {:induction false} DotSwap(u: seq<real>, v: seq<real>, k: nat)
    requires k <= |u| && k <= |v|
    ensures DotTo(u, v, k) == DotTo(v, u, k)
  {
    if k > 0 {
      DotSwap(u, v, k - 1);
    }
  }

  lemma {:induction false} DotSquare(u: seq<real>, k: nat)
    requires k <= |u|
    ensures DotTo(u, u, k) >= 0.0
  {
    if k > 0 {
      DotSquare(u, k - 1);
      assert u[k - 1] * u[k - 1] >= 0.0;
    }
  }

  // ----- the model

  /** Four columns of one value per sample. */
  ghost predicate Shaped(cols: seq<seq<real>>, n: nat) {
    |cols| == 4 && forall i :: 0 <= i < 4 ==> |cols[i]| == n
  }

  function ModelAt(cols: seq<seq<real>>, x: seq<real>, k: nat): real
    requires |cols| == 4 && |x| == 4 && forall i :: 0 <= i < 4 ==> k < |cols[i]|
  {
    x[0] * cols[0][k] + x[1] * cols[1][k] + x[2] * cols[2][k] + x[3] * cols[3][k]
  }

  function Residual(cols: seq<seq<real>>, omega: seq<real>, x: seq<real>): (e: seq<real>)
    requires Shaped(cols, |omega|) && |x| == 4
    ensures |e| == |omega|
  {
    seq(|omega|, k requires 0 <= k < |omega| => ModelAt(cols, x, k) - omega[k])
  }

  /** The residual sum of squares. */
  function Rss(cols: seq<seq<real>>, omega: seq<real>, x: seq<real>): real
    requires Shaped(cols, |omega|) && |x| == 4
  {
    Dot(Residual(cols, omega, x), Residual(cols, omega, x))
  }

  /** Row i of the normal equations. */
  function NormalRow(cols: seq<seq<real>>, omega: seq<real>, i: nat): Equation
    requires Shaped(cols, |omega|) && i < 4
  {
    Equation([Dot(cols[i], cols[0]), Dot(cols[i], cols[1]), Dot(cols[i], cols[2]), Dot(cols[i], cols[3])],
             Dot(cols[i], omega))
  }

  function Normal(cols: seq<seq<real>>, omega: seq<real>): System
    requires Shaped(cols, |omega|)
  {
    [NormalRow(cols, omega, 0), NormalRow(cols, omega, 1), NormalRow(cols, omega, 2), NormalRow(cols, omega, 3)]
  }

  /** A combination of four values. */
  function Four(x: seq<real>, a0: real, a1: real, a2: real, a3: real): real
    requires |x| == 4
  {
    x[0] * a0 + x[1] * a1 + x[2] * a2 + x[3] * a3
  }

  lemma FourAdd(x: seq<real>, a0: real, a1: real, a2: real, a3: real, b0: real, b1: real, b2: real, b3: real)
    requires |x| == 4
    ensures Four(x, a0 + b0, a1 + b1, a2 + b2, a3 + b3) == Four(x, a0, a1, a2, a3) + Four(x, b0, b1, b2, b3)
  {
    assert x[0] * (a0 + b0) == x[0] * a0 + x[0] * b0 && x[1] * (a1 + b1) == x[1] * a1 + x[1] * b1;
    assert x[2] * (a2 + b2) == x[2] * a2 + x[2] * b2 && x[3] * (a3 + b3) == x[3] * a3 + x[3] * b3;
  }

  lemma FourTimes(x: seq<real>, c: real, a0: real, a1: real, a2: real, a3: real)
    requires |x| == 4
    ensures c * Four(x, a0, a1, a2, a3) == Four(x, c * a0, c * a1, c * a2, c * a3)
  {
    assert c * (x[0] * a0) == x[0] * (c * a0) && c * (x[1] * a1) == x[1] * (c * a1);
    assert c * (x[2] * a2) == x[2] * (c * a2) && c * (x[3] * a3) == x[3] * (c * a3);
  }

  /** The model against any vector is the combination of the columns against it. */
  lemma {:induction false} DotModel(cols: seq<seq<real>>, m: nat, x: seq<real>, v: seq<real>, n: nat)
    requires Shaped(cols, m) && |x| == 4 && |v| == m && n <= m
    ensures DotTo(Shift(cols, m, x), v, n) ==
      Four(x, DotTo(cols[0], v, n), DotTo(cols[1], v, n), DotTo(cols[2], v, n), DotTo(cols[3], v, n))
  {
    if n > 0 {
      DotModel(cols, m, x, v, n - 1);
      var k := n - 1;
      var a0, a1, a2, a3 := cols[0][k], cols[1][k], cols[2][k], cols[3][k];
      assert Shift(cols, m, x)[k] == Four(x, a0, a1, a2, a3);
      hide Four, Shift;
      FourTimes(x, v[k], a0, a1, a2, a3);
      FourAdd(x, DotTo(cols[0], v, k), DotTo(cols[1], v, k), DotTo(cols[2], v, k), DotTo(cols[3], v, k),
              v[k] * a0, v[k] * a1, v[k] * a2, v[k] * a3);
    } else {
      assert Four(x, 0.0, 0.0, 0.0, 0.0) == 0.0;
    }
  }

  lemma {:induction false} DotMinus(u: seq<real>, v: seq<real>, w: seq<real>, c: seq<real>, n: nat)
    requires n <= |u| == |v| == |w| == |c| && forall k :: 0 <= k < n ==> w[k] == u[k] - v[k]
    ensures DotTo(c, w, n) == DotTo(c, u, n) - DotTo(c, v, n)
  {
    if n > 0 {
      DotMinus(u, v, w, c, n - 1);
      assert c[n - 1] * (u[n - 1] - v[n - 1]) == c[n - 1] * u[n - 1] - c[n - 1] * v[n - 1];
    }
  }

  lemma FourTerms(u: seq<real>, x: seq<real>)
    requires |u| == 4 && |x| == 4
    ensures Dot(u, x) == u[0] * x[0] + u[1] * x[1] + u[2] * x[2] + u[3] * x[3]
  {
    assert DotTo(u, x, 1) == u[0] * x[0];
    assert DotTo(u, x, 2) == u[0] * x[0] + u[1] * x[1];
    assert DotTo(u, x, 3) == u[0] * x[0] + u[1] * x[1] + u[2] * x[2];
  }

  /** The model for coefficients `d`, sample by sample. */
  function Shift(cols: seq<seq<real>>, n: nat, d: seq<real>): (s: seq<real>)
    requires Shaped(cols, n) && |d| == 4
    ensures |s| == n
  {
    seq(n, k requires 0 <= k < n => ModelAt(cols, d, k))
  }

  /** A row of the normal equations at `y` is the column against the model. */
  lemma NormalValue(cols: seq<seq<real>>, omega: seq<real>, y: seq<real>, i: nat)
    requires Shaped(cols, |omega|) && |y| == 4 && i < 4
    ensures Value(NormalRow(cols, omega, i), y) == Dot(cols[i], Shift(cols, |omega|, y))
  {
    var n := |omega|;
    var e, c, m := NormalRow(cols, omega, i), cols[i], Shift(cols, n, y);
    hide Shift, DotTo, Four;
    DotModel(cols, n, y, c, n);
    DotSwap(m, c, n);
    DotSwap(cols[0], c, n);
    DotSwap(cols[1], c, n);
    DotSwap(cols[2], c, n);
    DotSwap(cols[3], c, n);
    FourValues(e.coef, y);
  }

  lemma FourValues(u: seq<real>, x: seq<real>)
    requires |u| == 4 && |x| == 4
    ensures Dot(u, x) == Four(x, u[0], u[1], u[2], u[3])
  {
    FourTerms(u, x);
  }

  /** At a solution of the normal equations the residual is orthogonal to every
      column. */
  lemma Orthogonal(cols: seq<seq<real>>, omega: seq<real>, x: seq<real>, i: nat)
    requires Shaped(cols, |omega|) && |x| == 4 && i < 4 && Solves(Normal(cols, omega), x)
    ensures Dot(cols[i], Residual(cols, omega, x)) == 0.0
  {
    var n := |omega|;
    var e := Normal(cols, omega)[i];
    assert Satisfies(e, x) && e == NormalRow(cols, omega, i);
    NormalValue(cols, omega, x, i);
    DotMinus(Shift(cols, n, x), omega, Residual(cols, omega, x), cols[i], n);
  }

  /** The columns are nearly dependent: a combination of them with a unit
      coefficient is nearly orthogonal to every one of them, and hence nearly
      nothing itself. */
  ghost predicate NearlyDependent(cols: seq<seq<real>>, n: nat, eps: real)
    requires Shaped(cols, n)
  {
    exists y: seq<real>, col: nat :: |y| == 4 && col < 4 && y[col] == 1.0 && Vanishes(cols, n, y, eps)
  }

  ghost predicate Vanishes(cols: seq<seq<real>>, n: nat, y: seq<real>, eps: real)
    requires Shaped(cols, n) && |y| == 4
  {
    var m := Shift(cols, n, y);
    && (forall i :: 0 <= i < 4 ==> Abs(Dot(cols[i], m)) < eps)
    && Dot(m, m) <= (Abs(y[0]) + Abs(y[1]) + Abs(y[2]) + Abs(y[3])) * eps
  }

  lemma TermBelow(x: real, d: real, eps: real)
    requires Abs(d) < eps
    ensures x * d <= Abs(x) * eps
  {
    if x >= 0.0 {
      Times(d, eps, x);
    } else {
      Times(-d, eps, -x);
    }
  }

  lemma FourBelow(y: seq<real>, d0: real, d1: real, d2: real, d3: real, eps: real)
    requires |y| == 4 && Abs(d0) < eps && Abs(d1) < eps && Abs(d2) < eps && Abs(d3) < eps
    ensures Four(y, d0, d1, d2, d3) <= (Abs(y[0]) + Abs(y[1]) + Abs(y[2]) + Abs(y[3])) * eps
  {
    hide Abs;
    TermBelow(y[0], d0, eps);
    TermBelow(y[1], d1, eps);
    TermBelow(y[2], d2, eps);
    TermBelow(y[3], d3, eps);
    Distributes(Abs(y[0]), Abs(y[1]), Abs(y[2]), Abs(y[3]), eps);
  }

  lemma Distributes(a: real, b: real, c: real, d: real, k: real)
    ensures (a + b + c + d) * k == a * k + b * k + c * k + d * k
  {}

  lemma SmallAgainst(cols: seq<seq<real>>, omega: seq<real>, y: seq<real>, eps: real, i: nat)
    requires Shaped(cols, |omega|) && |y| == 4 && Small(Normal(cols, omega), y, eps) && i < 4
    ensures Abs(Dot(cols[i], Shift(cols, |omega|, y))) < eps
  {
    NormalValue(cols, omega, y, i);
    var s := Normal(cols, omega);
    assert s[i] == NormalRow(cols, omega, i) && Abs(Value(s[i], y)) < eps;
  }

  lemma SmallVanishes(cols: seq<seq<real>>, omega: seq<real>, y: seq<real>, eps: real)
    requires Shaped(cols, |omega|) && |y| == 4 && Small(Normal(cols, omega), y, eps)
    ensures Vanishes(cols, |omega|, y, eps)
  {
    var n := |omega|;
    var m := Shift(cols, n, y);
    hide Shift, Normal, Small, Abs, Four;
    forall i | 0 <= i < 4 ensures Abs(Dot(cols[i], m)) < eps {
      SmallAgainst(cols, omega, y, eps, i);
    }
    DotModel(cols, n, y, m, n);
    hide DotTo;
    FourBelow(y, Dot(cols[0], m), Dot(cols[1], m), Dot(cols[2], m), Dot(cols[3], m), eps);
  }

  lemma SingularMeansDependent(cols: seq<seq<real>>, omega: seq<real>, eps: real)
    requires Shaped(cols, |omega|) && NearlySingular(Normal(cols, omega), 4, eps)
    ensures NearlyDependent(cols, |omega|, eps)
  {
    hide Vanishes, Normal, Small;
    var y: seq<real>, col: nat :| |y| == 4 && col < 4 && y[col] == 1.0 && Small(Normal(cols, omega), y, eps);
    SmallVanishes(cols, omega, y, eps);
  }

  /** |e + s|^2 = |e|^2 + 2 e.s + |s|^2 */
  lemma {:induction false} SquareOfSum(e: seq<real>, s: seq<real>, f: seq<real>, n: nat)
    requires n <= |e| == |s| == |f| && forall k :: 0 <= k < n ==> f[k] == e[k] + s[k]
    ensures DotTo(f, f, n) == DotTo(e, e, n) + 2.0 * DotTo(s, e, n) + DotTo(s, s, n)
  {
    if n > 0 {
      SquareOfSum(e, s, f, n - 1);
      assert f[n - 1] * f[n - 1] == e[n - 1] * e[n - 1] + 2.0 * (s[n - 1] * e[n - 1]) + s[n - 1] * s[n - 1];
    }
  }

  function Difference(y: seq<real>, x: seq<real>): (d: seq<real>)
    requires |x| == 4 && |y| == 4
    ensures |d| == 4
  {
    [y[0] - x[0], y[1] - x[1], y[2] - x[2], y[3] - x[3]]
  }

  lemma ShiftedModel(cols: seq<seq<real>>, x: seq<real>, y: seq<real>, k: nat)
    requires |cols| == 4 && |x| == 4 && |y| == 4 && forall i :: 0 <= i < 4 ==> k < |cols[i]|
    ensures ModelAt(cols, y, k) == ModelAt(cols, x, k) + ModelAt(cols, Difference(y, x), k)
  {
    var a, b, c, d := cols[0][k], cols[1][k], cols[2][k], cols[3][k];
    assert (y[0] - x[0]) * a == y[0] * a - x[0] * a && (y[1] - x[1]) * b == y[1] * b - x[1] * b;
    assert (y[2] - x[2]) * c == y[2] * c - x[2] * c && (y[3] - x[3]) * d == y[3] * d - x[3] * d;
  }

  /** Exactly how much worse any other coefficients are: by the squared size of
      the change they make to the model. */
  lemma Pythagoras(cols: seq<seq<real>>, omega: seq<real>, x: seq<real>, y: seq<real>)
    requires Shaped(cols, |omega|) && |x| == 4 && |y| == 4 && Solves(Normal(cols, omega), x)
    ensures var s := Shift(cols, |omega|, Difference(y, x)); Rss(cols, omega, y) == Rss(cols, omega, x) + Dot(s, s)
  {
    var n := |omega|;
    var e, f := Residual(cols, omega, x), Residual(cols, omega, y);
    var d := Difference(y, x);
    var s := Shift(cols, n, d);
    forall k | 0 <= k < n ensures f[k] == e[k] + s[k] {
      ShiftedModel(cols, x, y, k);
    }
    SquareOfSum(e, s, f, n);
    DotModel(cols, n, d, e, n);
    hide Difference, Shift, Residual, Normal, Four;
    Orthogonal(cols, omega, x, 0);
    Orthogonal(cols, omega, x, 1);
    Orthogonal(cols, omega, x, 2);
    Orthogonal(cols, omega, x, 3);
    NoCross(d);
  }

  lemma NoCross(d: seq<real>)
    requires |d| == 4
    ensures Four(d, 0.0, 0.0, 0.0, 0.0) == 0.0
  {}

  /** No other four coefficients do better, for every sample count and every data. */
  lemma LeastOfAll(cols: seq<seq<real>>, omega: seq<real>, x: seq<real>, y: seq<real>)
    requires Shaped(cols, |omega|) && |x| == 4 && |y| == 4 && Solves(Normal(cols, omega), x)
    ensures Rss(cols, omega, x) <= Rss(cols, omega, y)
  {
    Pythagoras(cols, omega, x, y);
    DotSquare(Shift(cols, |omega|, Difference(y, x)), |omega|);
  }

  // ----- building and solving the normal equations

  method DotLoop(u: seq<real>, v: seq<real>) returns (s: real)
    requires |u| == |v|
    ensures s == Dot(u, v)
  {
    s := 0.0;
    for k := 0 to |u|
      invariant s == DotTo(u, v, k)
    {
      s := s + u[k] * v[k];
    }
  }

  /** The products already stored: row and column below `i`, and row `i` up to `j`. */
  ghost predicate Stored(a: array2<real>, cols: seq<seq<real>>, omega: seq<real>, i: nat, j: nat)
    reads a
    requires Shaped(cols, |omega|) && a.Length0 == 4 && a.Length1 == 5
  {
    && (forall p, q :: 0 <= p < 4 && 0 <= q < 4 && (p < i || q < i) ==> a[p, q] == Dot(cols[p], cols[q]))
    && (i < 4 ==> forall q :: i <= q < j && q < 4 ==>
          a[i, q] == Dot(cols[i], cols[q]) && a[q, i] == Dot(cols[q], cols[i]))
    && (forall p :: 0 <= p < i && p < 4 ==> a[p, 4] == Dot(cols[p], omega))
  }

  /** One row and the matching column; the matrix is symmetric, so each product
      is computed once. */
  method FillRow(a: array2<real>, cols: seq<seq<real>>, omega: seq<real>, i: nat)
    requires Shaped(cols, |omega|) && a.Length0 == 4 && a.Length1 == 5 && i < 4
    requires Stored(a, cols, omega, i, i)
    modifies a
    ensures Stored(a, cols, omega, i + 1, i + 1)
  {
    hide Dot;
    for j := i to 4
      invariant Stored(a, cols, omega, i, j)
    {
      var s := DotLoop(cols[i], cols[j]);
      Symmetric(cols[i], cols[j]);
      a[i, j] := s;
      a[j, i] := s;
    }
    var s := DotLoop(cols[i], omega);
    a[i, 4] := s;
  }

  lemma Symmetric(u: seq<real>, v: seq<real>)
    requires |u| == |v|
    ensures Dot(u, v) == Dot(v, u)
  {
    DotSwap(u, v, |u|);
  }

  method FillNormal(cols: seq<seq<real>>, omega: seq<real>) returns (a: array2<real>)
    requires Shaped(cols, |omega|)
    ensures fresh(a) && a.Length0 == 4 && a.Length1 == 5 && SymSolve.View(a) == Normal(cols, omega)
  {
    a := new real[4, 5]((i, j) => 0.0);
    for i := 0 to 4
      invariant Stored(a, cols, omega, i, i)
    {
      FillRow(a, cols, omega, i);
    }
    var s, t := SymSolve.View(a), Normal(cols, omega);
    hide Dot;
    SameEntries(s, t, 4);
  }

  // ----- the plant

  /** The rate and the acceleration of the plant at a sample. */
  datatype Plant = Plant(rate: real, accel: real)

  /** One sample of a first-order lag with pole `a` and time constant `tau`,
      integrated with the input held at `u`. */
  function Hold(p: Plant, u: real, dt: real, a: real, tau: real): Plant {
    Plant(PushRate(p.rate, p.accel, u, dt, Weight(a, tau)), PushAccel(p.accel, u, a))
  }

  /** The integral of a decaying unit acceleration over one sample. */
  function Weight(a: real, tau: real): real {
    tau * (1.0 - a)
  }

  function PushRate(rate: real, accel: real, u: real, dt: real, g: real): real {
    rate + u * dt + (accel - u) * g
  }

  function PushAccel(accel: real, u: real, a: real): real {
    a * accel + (1.0 - a) * u
  }

  lemma SubdividedAccel(accel: real, u: real, a: real, b: real)
    ensures PushAccel(PushAccel(accel, u, a), u, b) == PushAccel(accel, u, a * b)
    ensures PushAccel(accel, u, a) - u == a * (accel - u)
  {
    assert b * (a * accel + (1.0 - a) * u) == a * b * accel + b * u - a * b * u;
    assert a * (accel - u) == a * accel - a * u;
  }

  lemma Weights(d: real, a: real, b: real, tau: real)
    ensures d * Weight(a, tau) + a * d * Weight(b, tau) == d * Weight(a * b, tau)
  {
    var e := d * tau;
    assert d * Weight(a, tau) == e - e * a;
    assert a * d * Weight(b, tau) == e * a - e * (a * b);
    assert d * Weight(a * b, tau) == e - e * (a * b);
  }

  lemma SubdividedRate(rate: real, accel: real, u: real, dt: real, a: real, ds: real, b: real, tau: real)
    ensures PushRate(PushRate(rate, accel, u, dt, Weight(a, tau)), PushAccel(accel, u, a), u, ds, Weight(b, tau))
         == PushRate(rate, accel, u, dt + ds, Weight(a * b, tau))
  {
    SubdividedAccel(accel, u, a, b);
    var d := accel - u;
    hide PushAccel;
    Weights(d, a, b, tau);
    assert u * (dt + ds) == u * dt + u * ds;
  }

  /** The step is exact: cutting the interval in two, at any point, and holding
      the input over both parts gives the same state. */
  lemma Subdivides(p: Plant, u: real, dt: real, a: real, ds: real, b: real, tau: real)
    ensures Hold(Hold(p, u, dt, a, tau), u, ds, b, tau) == Hold(p, u, dt + ds, a * b, tau)
  {
    SubdividedAccel(p.accel, u, a, b);
    SubdividedRate(p.rate, p.accel, u, dt, a, ds, b, tau);
    hide PushRate, PushAccel, Weight;
  }

  function Simulated(p: Plant, u: seq<real>, dt: real, a: real, tau: real, k: nat): Plant
    requires k <= |u|
  {
    if k == 0 then p else Hold(Simulated(p, u, dt, a, tau, k - 1), u[k - 1], dt, a, tau)
  }

  /** The forced and the homogeneous responses of the fit. */
  function Forced(u: seq<real>, dt: real, a: real, tau: real, k: nat): Plant
    requires k <= |u|
  {
    Simulated(Plant(0.0, 0.0), u, dt, a, tau, k)
  }

  function Idle(n: nat): (z: seq<real>)
    ensures |z| == n
  {
    seq(n, i => 0.0)
  }

  function Decay(n: nat, dt: real, a: real, tau: real, k: nat): Plant
    requires k <= n
  {
    Simulated(Plant(0.0, 1.0), Idle(n), dt, a, tau, k)
  }

  function Gained(gain: real, u: real): real {
    gain * u
  }

  function Scaled(u: seq<real>, gain: real): (v: seq<real>)
    ensures |v| == |u|
  {
    seq(|u|, i requires 0 <= i < |u| => Gained(gain, u[i]))
  }

  function Blend(g: real, x: real, c: real, y: real, w: real): real {
    g * x + c * y + w
  }

  lemma BlendStart(g: real, c: real, w: real)
    ensures Blend(g, 0.0, c, 0.0, w) == w && Blend(g, 0.0, c, 1.0, 0.0) == c
  {}

  lemma PushRateLinear(fr: real, fa: real, hr: real, ha: real, g: real, c: real, w: real, u: real, dt: real, s: real)
    ensures PushRate(Blend(g, fr, c, hr, w), Blend(g, fa, c, ha, 0.0), Gained(g, u), dt, s) ==
      Blend(g, PushRate(fr, fa, u, dt, s), c, PushRate(hr, ha, 0.0, dt, s), w)
  {
    var x, y, v := (fa - u) * s, (ha - 0.0) * s, u * dt;
    assert (g * fa + c * ha + 0.0 - g * u) * s == g * x + c * y;
    assert g * u * dt == g * v;
    assert g * (fr + v + x) == g * fr + g * v + g * x;
    assert c * (hr + 0.0 * dt + y) == c * hr + c * y;
  }

  lemma PushAccelLinear(fa: real, ha: real, g: real, c: real, u: real, a: real)
    ensures PushAccel(Blend(g, fa, c, ha, 0.0), Gained(g, u), a) ==
      Blend(g, PushAccel(fa, u, a), c, PushAccel(ha, 0.0, a), 0.0)
  {
    var b := 1.0 - a;
    assert a * (g * fa + c * ha + 0.0) == g * (a * fa) + c * (a * ha);
    assert b * (g * u) == g * (b * u);
    assert g * (a * fa + b * u) == g * (a * fa) + g * (b * u);
    assert c * (a * ha + b * 0.0) == c * (a * ha);
  }

  /** A plant that is the combination of two others and a constant rate. */
  function Mixed(f: Plant, h: Plant, g: real, c: real, w: real): Plant {
    Plant(Blend(g, f.rate, c, h.rate, w), Blend(g, f.accel, c, h.accel, 0.0))
  }

  lemma HoldLinear(f: Plant, h: Plant, g: real, c: real, w: real, u: real, dt: real, a: real, tau: real)
    ensures Hold(Mixed(f, h, g, c, w), Gained(g, u), dt, a, tau) ==
      Mixed(Hold(f, u, dt, a, tau), Hold(h, 0.0, dt, a, tau), g, c, w)
  {
    hide PushRate, PushAccel, Weight, Blend, Gained;
    PushRateLinear(f.rate, f.accel, h.rate, h.accel, g, c, w, u, dt, Weight(a, tau));
    PushAccelLinear(f.accel, h.accel, g, c, u, a);
  }

  /** For a fixed pole the simulated rate is linear in the gain, the initial
      acceleration and the rate offset: the two responses and a constant span
      every simulation. */
  lemma {:induction false} ModelIsSimulation(u: seq<real>, dt: real, a: real, tau: real,
                                             g: real, c: real, w: real, k: nat)
    requires k <= |u|
    ensures Simulated(Plant(w, c), Scaled(u, g), dt, a, tau, k) ==
      Mixed(Forced(u, dt, a, tau, k), Decay(|u|, dt, a, tau, k), g, c, w)
  {
    hide Hold, Blend, Gained;
    if k == 0 {
      BlendStart(g, c, w);
    } else {
      ModelIsSimulation(u, dt, a, tau, g, c, w, k - 1);
      var f, h := Forced(u, dt, a, tau, k - 1), Decay(|u|, dt, a, tau, k - 1);
      assert Scaled(u, g)[k - 1] == Gained(g, u[k - 1]) && Idle(|u|)[k - 1] == 0.0;
      hide Mixed;
      HoldLinear(f, h, g, c, w, u[k - 1], dt, a, tau);
    }
  }

  /** What the plant holds: its rate, and the rate still stored in the lag. */
  function Stock(p: Plant, tau: real): real {
    p.rate + tau * p.accel
  }

  function Fed(u: seq<real>, dt: real, k: nat): real
    requires k <= |u|
  {
    if k == 0 then 0.0 else Fed(u, dt, k - 1) + u[k - 1] * dt
  }

  lemma HoldConserves(p: Plant, u: real, dt: real, a: real, tau: real)
    ensures Stock(Hold(p, u, dt, a, tau), tau) == Stock(p, tau) + u * dt
  {
    assert (p.accel - u) * (tau * (1.0 - a)) + tau * (a * p.accel + (1.0 - a) * u) == tau * p.accel;
  }

  /** These two laws are the step: the acceleration's distance from the input
      shrinks by the pole, and the stock takes up the input. */
  lemma HoldIsOnly(p: Plant, q: Plant, u: real, dt: real, a: real, tau: real)
    requires q.accel - u == a * (p.accel - u) && q.rate + tau * q.accel == p.rate + tau * p.accel + u * dt
    ensures q == Hold(p, u, dt, a, tau)
  {
    HoldConserves(p, u, dt, a, tau);
    assert a * (p.accel - u) == a * p.accel - a * u;
    assert (1.0 - a) * u == u - a * u;
  }

  /** Over any run the stock is the start's plus the integral of the input:
      nothing is lost to the discretisation. */
  lemma {:induction false} SimulationConserves(p: Plant, u: seq<real>, dt: real, a: real, tau: real, k: nat)
    requires k <= |u|
    ensures Stock(Simulated(p, u, dt, a, tau, k), tau) == Stock(p, tau) + Fed(u, dt, k)
  {
    hide Hold, Stock;
    if k > 0 {
      SimulationConserves(p, u, dt, a, tau, k - 1);
      HoldConserves(Simulated(p, u, dt, a, tau, k - 1), u[k - 1], dt, a, tau);
    }
  }

  lemma Responses(u: seq<real>, dt: real, a: real, tau: real, k: nat)
    requires k < |u|
    ensures Forced(u, dt, a, tau, 0) == Plant(0.0, 0.0) && Decay(|u|, dt, a, tau, 0) == Plant(0.0, 1.0)
    ensures var f, h, g := Forced(u, dt, a, tau, k), Decay(|u|, dt, a, tau, k), Weight(a, tau);
      && Forced(u, dt, a, tau, k + 1) == Plant(PushRate(f.rate, f.accel, u[k], dt, g), PushAccel(f.accel, u[k], a))
      && Decay(|u|, dt, a, tau, k + 1) == Plant(CoastRate(h.rate, h.accel, g), CoastAccel(h.accel, a))
  {
    var f, h := Forced(u, dt, a, tau, k), Decay(|u|, dt, a, tau, k);
    assert Idle(|u|)[k] == 0.0;
    Coasts(h, dt, a, tau);
    assert Forced(u, dt, a, tau, k + 1) == Hold(f, u[k], dt, a, tau);
    hide Weight, PushRate, PushAccel, CoastRate, CoastAccel;
  }

  /** With no input, the push simplifies. */
  function CoastRate(rate: real, accel: real, g: real): real {
    rate + accel * g
  }

  function CoastAccel(accel: real, a: real): real {
    a * accel
  }

  lemma Coasts(h: Plant, dt: real, a: real, tau: real)
    ensures Hold(h, 0.0, dt, a, tau) == Plant(CoastRate(h.rate, h.accel, Weight(a, tau)), CoastAccel(h.accel, a))
  {}

  method Basis(u: seq<real>, dt: real, a: real, ln: real -> real) returns (forced: seq<real>, decay: seq<real>)
    requires ln(a) != 0.0
    ensures |forced| == |decay| == |u|
    ensures var tau := -dt / ln(a); forall k :: 0 <= k < |u| ==>
      forced[k] == Forced(u, dt, a, tau, k).rate && decay[k] == Decay(|u|, dt, a, tau, k).rate
  {
    hide Weight, PushRate, PushAccel, CoastRate, CoastAccel, Forced, Decay;
    var tau := -dt / ln(a);
    var g := Weight(a, tau);
    if |u| == 0 {
      return [], [];
    }
    Responses(u, dt, a, tau, 0);
    forced, decay := [0.0], [0.0];
    var af, aa := 0.0, 1.0;
    for k := 0 to |u| - 1
      invariant |forced| == |decay| == k + 1
      invariant Plant(forced[k], af) == Forced(u, dt, a, tau, k) && Plant(decay[k], aa) == Decay(|u|, dt, a, tau, k)
      invariant forall i :: 0 <= i <= k ==>
        forced[i] == Forced(u, dt, a, tau, i).rate && decay[i] == Decay(|u|, dt, a, tau, i).rate
    {
      Responses(u, dt, a, tau, k);
      forced := forced + [PushRate(forced[k], af, u[k], dt, g)];
      af := PushAccel(af, u[k], a);
      decay := decay + [CoastRate(decay[k], aa, g)];
      aa := CoastAccel(aa, a);
    }
  }

  // ----- the fit

  function Ones(n: nat): (s: seq<real>)
    ensures |s| == n
  {
    seq(n, i => 1.0)
  }

  function Ramp(n: nat, dt: real): (s: seq<real>)
    ensures |s| == n
  {
    seq(n, (i: int) => i as real * dt)
  }

  /** The rate trajectory of a plant with these coefficients at sample k. */
  function Trajectory(u: seq<real>, dt: real, a: real, tau: real, x: seq<real>, k: nat): real
    requires |x| == 4 && k <= |u|
  {
    Simulated(Plant(x[2], x[1]), Scaled(u, x[0]), dt, a, tau, k).rate + x[3] * (k as real * dt)
  }

  /** The four columns give exactly the trajectories of the plant. */
  lemma ColumnsAreTrajectories(u: seq<real>, dt: real, a: real, tau: real, forced: seq<real>, decay: seq<real>,
                               x: seq<real>, k: nat)
    requires |forced| == |decay| == |u| && |x| == 4 && k < |u|
    requires forced[k] == Forced(u, dt, a, tau, k).rate && decay[k] == Decay(|u|, dt, a, tau, k).rate
    ensures ModelAt([forced, decay, Ones(|u|), Ramp(|u|, dt)], x, k) == Trajectory(u, dt, a, tau, x, k)
  {
    ModelIsSimulation(u, dt, a, tau, x[0], x[1], x[2], k);
  }

  method SumOfSquares(cols: seq<seq<real>>, omega: seq<real>, x: seq<real>) returns (rss: real)
    requires Shaped(cols, |omega|) && |x| == 4
    ensures rss == Rss(cols, omega, x)
  {
    ghost var e := Residual(cols, omega, x);
    rss := 0.0;
    for k := 0 to |omega|
      invariant rss == DotTo(e, e, k)
    {
      var m := x[0] * cols[0][k] + x[1] * cols[1][k] + x[2] * cols[2][k] + x[3] * cols[3][k];
      var d := m - omega[k];
      rss := rss + d * d;
    }
  }

  datatype Fit = NoFit | Fit(coef: seq<real>, rss: real)

  /** Best coefficients for a fixed pole: the one and only solution of the normal
      equations, with no smaller residual anywhere; or none, and the columns are
      nearly dependent. */
  method FitFixed(u: seq<real>, omega: seq<real>, dt: real, a: real, ln: real -> real)
    returns (r: Fit, cols: seq<seq<real>>)
    requires |u| == |omega| && ln(a) != 0.0
    ensures Shaped(cols, |omega|)
    ensures forall x: seq<real>, k: nat :: |x| == 4 && k < |u| ==>
      ModelAt(cols, x, k) == Trajectory(u, dt, a, -dt / ln(a), x, k)
    ensures r.NoFit? ==> NearlyDependent(cols, |omega|, 1e-300)
    ensures r.Fit? ==> |r.coef| == 4 && UniquelySolves(Normal(cols, omega), r.coef)
    ensures r.Fit? ==> r.rss == Rss(cols, omega, r.coef)
    ensures r.Fit? ==> forall y: seq<real> :: |y| == 4 ==> r.rss <= Rss(cols, omega, y)
  {
    var n := |u|;
    var forced, decay := Basis(u, dt, a, ln);
    cols := [forced, decay, Ones(n), Ramp(n, dt)];
    forall x: seq<real>, k: nat | |x| == 4 && k < |u|
      ensures ModelAt(cols, x, k) == Trajectory(u, dt, a, -dt / ln(a), x, k)
    {
      ColumnsAreTrajectories(u, dt, a, -dt / ln(a), forced, decay, x, k);
    }
    hide ModelAt, Trajectory, Normal, Rss, NearlySingular, NearlyDependent;
    var m := FillNormal(cols, omega);
    var ans := SymSolve.SolveSym(m);
    if ans.None? {
      SingularMeansDependent(cols, omega, SymSolve.PIVOT_MIN);
      return NoFit, cols;
    }
    SolutionLength(cols, omega, ans.x);
    var rss := SumOfSquares(cols, omega, ans.x);
    forall y: seq<real> | |y| == 4 ensures rss <= Rss(cols, omega, y) {
      LeastOfAll(cols, omega, ans.x, y);
    }
    return Fit(ans.x, rss), cols;
  }

  lemma SolutionLength(cols: seq<seq<real>>, omega: seq<real>, x: seq<real>)
    requires Shaped(cols, |omega|) && Solves(Normal(cols, omega), x)
    ensures |x| == 4
  {
    assert Satisfies(Normal(cols, omega)[0], x);
  }
}
