/** The positive cube root: range reduction by factors of eight, then ten
    Newton steps. */
module CubeRoot {
  import opened Reals

  /** Relative error bound of the result's cube. */
  const TOLERANCE := 3e-384

  function Cube(y: real): real {
    y * y * y
  }

  function Newton(x: real, y: real): real
    requires y > 0.0
  {
    (2.0 * y + x / (y * y)) / 3.0
  }

  /** A relative overshoot of the cube that `k` steps never exceed: the first
      lands within 52 percent, and each one after it squares that over three. */
  function Overshoot(k: nat): (rho: real)
    requires k >= 1
    ensures rho >= 0.0
  {
    if k == 1 then 0.52 else Squared(Overshoot(k - 1))
  }

  function Squared(rho: real): (r: real)
    ensures r >= 0.0
  {
    rho * rho / 3.0
  }

  lemma SquaredBelow(rho: real, bound: real, r: real)
    requires 0.0 <= rho <= bound && bound * bound <= 3.0 * r
    ensures Squared(rho) <= r
  {
    Times(rho, bound, rho);
    Times(rho, bound, bound);
  }

  /** Ten steps are within the tolerance. */
  lemma TenSteps()
    ensures Overshoot(10) <= 3e-384
  {
    OvershootNext(1, 0.52, 0.0902);
    OvershootNext(2, 0.0902, 0.0028);
    OvershootNext(3, 0.0028, 0.000003);
    OvershootNext(4, 0.000003, 3e-12);
    OvershootNext(5, 3e-12, 3e-24);
    OvershootNext(6, 3e-24, 3e-48);
    OvershootNext(7, 3e-48, 3e-96);
    OvershootNext(8, 3e-96, 3e-192);
    OvershootNext(9, 3e-192, 3e-384);
  }

  lemma OvershootNext(k: nat, bound: real, next: real)
    requires k >= 1 && Overshoot(k) <= bound && bound * bound <= 3.0 * next
    ensures Overshoot(k + 1) <= next
  {
    SquaredBelow(Overshoot(k), bound, next);
  }

  /** `y` cubed is at least `x`, by no more than the fraction `rho`. */
  ghost predicate Within(x: real, y: real, rho: real) {
    y > 0.0 && x <= Cube(y) <= x * (1.0 + rho)
  }

  /** The excess of a Newton step, in factored form; z stands for x / y^2. */
  lemma NewtonExcess(y: real, z: real, n: real)
    requires n == (2.0 * y + z) / 3.0
    ensures 27.0 * (Cube(n) - y * y * z) == (z - y) * (z - y) * (z + 8.0 * y)
  {
    var m := 3.0 * n;
    assert m == 2.0 * y + z;
    assert 27.0 * Cube(n) == Cube(m);
    assert Cube(m) == 8.0 * Cube(y) + 12.0 * y * y * z + 6.0 * y * z * z + Cube(z);
    assert (z - y) * (z - y) * (z + 8.0 * y) == Cube(z) + 6.0 * y * z * z - 15.0 * y * y * z + 8.0 * Cube(y);
  }

  /** From any positive start, one step never underestimates. */
  lemma NeverUnder(x: real, y: real)
    requires x > 0.0 && y > 0.0
    ensures Newton(x, y) > 0.0 && Cube(Newton(x, y)) >= x
  {
    var z := x / (y * y);
    Quotient(x, y, z);
    var n := Newton(x, y);
    NewtonExcess(y, z, n);
    NonNegative(z - y, z + 8.0 * y);
  }

  lemma Quotient(x: real, y: real, z: real)
    requires x > 0.0 && y > 0.0 && z == x / (y * y)
    ensures z > 0.0 && y * y * z == x
  {
    assert y * y > 0.0;
    assert z * (y * y) == x;
  }

  lemma NonNegative(d: real, k: real)
    requires k >= 0.0
    ensures d * d * k >= 0.0
  {
    assert d * d >= 0.0;
  }

  /** A step from above squares the overshoot, over three. */
  lemma Squares(x: real, y: real, rho: real)
    requires x > 0.0 && rho >= 0.0 && Within(x, y, rho)
    ensures Within(x, Newton(x, y), Squared(rho))
  {
    var z := x / (y * y);
    Quotient(x, y, z);
    var n := Newton(x, y);
    NeverUnder(x, y);
    hide Cube, Squared;
    NewtonExcess(y, z, n);
    StartsClose(y, z, rho);
    ExcessBound(y, z, rho);
    BoundedExcess(Cube(n), x, Squared(rho));
  }

  lemma BoundedExcess(c: real, x: real, r: real)
    requires 27.0 * (c - x) <= 27.0 * (x * r)
    ensures c <= x * (1.0 + r)
  {}

  lemma StartsClose(y: real, z: real, rho: real)
    requires y > 0.0 && z > 0.0 && y * y * z <= Cube(y) <= y * y * z * (1.0 + rho)
    ensures z <= y <= z * (1.0 + rho)
  {
    var d, e := y - z, z * (1.0 + rho) - y;
    assert y * (y * d) == Cube(y) - y * y * z;
    assert y * (y * e) == y * y * z * (1.0 + rho) - Cube(y);
    Sign(y, y * d);
    Sign(y, d);
    Sign(y, y * e);
    Sign(y, e);
  }

  lemma ExcessBound(y: real, z: real, rho: real)
    requires z > 0.0 && rho >= 0.0 && z <= y <= z * (1.0 + rho)
    ensures (z - y) * (z - y) * (z + 8.0 * y) <= 27.0 * (y * y * z * Squared(rho))
  {
    var d := y - z;
    assert 0.0 <= d <= rho * z;
    Times(d, rho * z, d);
    Times(d, rho * z, rho * z);
    assert d * d <= rho * z * (rho * z);
    var b := rho * rho * (z * z);
    assert b == rho * z * (rho * z) >= 0.0;
    Times(d * d, b, z + 8.0 * y);
    Times(z + 8.0 * y, 9.0 * y, b);
    assert b * (9.0 * y) == 9.0 * (rho * rho) * (y * z) * z;
    var g := 9.0 * (rho * rho) * (y * z);
    assert g >= 0.0 by { assert rho * rho >= 0.0 && y * z > 0.0; }
    Times(z, y, g);
    assert g * y == 27.0 * (y * y * z * (rho * rho / 3.0));
  }

  lemma Sign(q: real, d: real)
    requires q > 0.0 && q * d >= 0.0
    ensures d >= 0.0
  {
    if d < 0.0 {
      Positive(q, -d);
    }
  }

  /** After reduction the first step, from 0.75, lands within 52 percent. */
  lemma FirstStep(x: real)
    requires 0.125 <= x <= 1.0
    ensures Within(x, Newton(x, 0.75), Overshoot(1))
  {
    NeverUnder(x, 0.75);
    var t := Newton(x, 0.75);
    assert t == 0.5 + x * 16.0 / 27.0;
    ChordBound(t);
  }

  /** On the range of the first step the cube lies below its chord. */
  lemma ChordBound(t: real)
    requires 31.0 / 54.0 <= t <= 59.0 / 54.0
    ensures Cube(t) <= 1.52 * ((t - 0.5) * 27.0 / 16.0)
  {
    var p := 1829.0 / 2916.0;
    var a, b := t - 31.0 / 54.0, 59.0 / 54.0 - t;
    Times(0.0, a, b);
    assert a * b == 5.0 / 3.0 * t - p - t * t;
    assert t * t <= 5.0 / 3.0 * t - p;
    Times(t * t, 5.0 / 3.0 * t - p, t);
  }

  lemma WithinMore(x: real, y: real, rho: real, more: real)
    requires x > 0.0 && rho <= more && Within(x, y, rho)
    ensures Within(x, y, more)
  {
    Times(1.0 + rho, 1.0 + more, x);
  }

  /** Scaling back by the reduction factor keeps the relative bound. */
  lemma ScaledBack(x0: real, x: real, f: real, y: real, rho: real)
    requires f > 0.0 && x0 == x * Cube(f) && Within(x, y, rho)
    ensures Within(x0, y * f, rho)
  {
    var c := Cube(f);
    assert c > 0.0;
    assert Cube(y * f) == Cube(y) * c;
    Times(x, Cube(y), c);
    Times(Cube(y), x * (1.0 + rho), c);
    assert x * (1.0 + rho) * c == x0 * (1.0 + rho);
  }

  /** Range reduction: x0 = x f^3 with x in [1/8, 1]. */
  method Reduce(x0: real) returns (x: real, f: real)
    requires x0 > 0.0
    ensures 0.125 <= x <= 1.0 && f > 0.0 && x0 == x * Cube(f)
  {
    x, f := x0, 1.0;
    while x > 1.0
      invariant x > 0.0 && f > 0.0 && x0 == x * Cube(f)
      decreases 2.0 * x
    {
      assert x * 0.125 * Cube(f * 2.0) == x * Cube(f);
      x := x * 0.125;
      f := f * 2.0;
    }
    while x < 0.125
      invariant 0.0 < x <= 1.0 && f > 0.0 && x0 == x * Cube(f)
      decreases 1.0 / x
    {
      assert x * 8.0 * Cube(f * 0.5) == x * Cube(f);
      assert 1.0 / x - 1.0 / (x * 8.0) >= 1.0 by { Shrinks(x); }
      x := x * 8.0;
      f := f * 0.5;
    }
  }

  method CbrtPos(x0: real) returns (r: real)
    ensures x0 <= 0.0 ==> r == 0.0
    ensures x0 > 0.0 ==> Within(x0, r, 3e-384)
  {
    if x0 <= 0.0 {
      return 0.0;
    }
    var x, f := Reduce(x0);
    var y, i := 0.75, 0;
    while i < 10
      invariant i <= 10
      invariant i == 0 ==> y == 0.75
      invariant i > 0 ==> Within(x, y, Overshoot(i))
    {
      if i == 0 {
        FirstStep(x);
      } else {
        Squares(x, y, Overshoot(i));
      }
      y := (2.0 * y + x / (y * y)) / 3.0;
      i := i + 1;
    }
    TenSteps();
    WithinMore(x, y, Overshoot(10), TOLERANCE);
    ScaledBack(x0, x, f, y, TOLERANCE);
    r := y * f;
  }

  lemma Shrinks(x: real)
    requires 0.0 < x < 0.125
    ensures 1.0 / x - 1.0 / (x * 8.0) >= 1.0
  {
    var u := 1.0 / x;
    assert u * x == 1.0;
    assert u > 8.0;
    var w := 1.0 / (x * 8.0);
    assert w * (x * 8.0) == 1.0;
    assert (w * 8.0 - u) * x == 0.0;
  }
}
