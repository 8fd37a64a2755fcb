/** The one-dimensional search of the output-error identification: a grid in the
    logarithm of the time constant, then golden-section refinement. */
module GoldenSection {
  import opened Reals

  /** The golden ratio's reciprocal: gr^2 + gr = 1. */
  ghost predicate Golden(gr: real) {
    0.5 < gr < 1.0 && gr * gr + gr == 1.0
  }

  method GoldenRatio(sqrt: real -> real) returns (gr: real)
    requires IsSqrt(sqrt)
    ensures Golden(gr)
  {
    var r := sqrt(5.0);
    assert r >= 0.0 && r * r == 5.0;
    Between(r);
    gr := (r - 1.0) / 2.0;
    assert 4.0 * (gr * gr + gr) == (r - 1.0) * (r - 1.0) + 2.0 * (r - 1.0);
    assert (r - 1.0) * (r - 1.0) == r * r - 2.0 * r + 1.0;
  }

  lemma Between(r: real)
    requires r >= 0.0 && r * r == 5.0
    ensures 2.0 < r < 3.0
  {
    assert r <= 2.0 ==> r * r <= 2.0 * r;
    assert r >= 3.0 ==> r * r >= 3.0 * r;
  }

  /** The residual at a time constant, infinite where there is no fit. */
  datatype Cost = Finite(value: real) | Infinite

  /** The comparison of the code. */
  predicate Less(a: Cost, b: Cost) {
    a.Finite? && (b.Infinite? || a.value < b.value)
  }

  predicate BothInfinite(a: Cost, b: Cost) {
    a.Infinite? && b.Infinite?
  }

  /** Between `lo` and `hi` it falls strictly up to `m` and rises strictly from
      there, except that it may be infinite towards either end; outside, nothing
      is asked of it. */
  ghost predicate Unimodal(f: real -> Cost, lo: real, hi: real, m: real) {
    && lo <= m <= hi && f(m).Finite?
    && (forall x, y :: lo <= x < y <= m ==> Less(f(y), f(x)) || BothInfinite(f(x), f(y)))
    && (forall x, y :: m <= x < y <= hi ==> Less(f(x), f(y)) || BothInfinite(f(x), f(y)))
  }

  lemma UnimodalWithin(f: real -> Cost, lo: real, hi: real, m: real, a: real, b: real)
    requires Unimodal(f, lo, hi, m) && lo <= a <= m <= b <= hi
    ensures Unimodal(f, a, b, m)
  {}

  // ----- one bracket

  /** The bracket, the two interior points and the values kept for them. */
  datatype Bracket = Bracket(lo: real, hi: real, c: real, d: real, fc: Cost, fd: Cost) {
    function Width(): real {
      hi - lo
    }

    /** The points tell something. */
    predicate Informed() {
      fc.Finite? || fd.Finite?
    }
  }

  function Lower(lo: real, hi: real, gr: real): real {
    hi - gr * (hi - lo)
  }

  function Upper(lo: real, hi: real, gr: real): real {
    lo + gr * (hi - lo)
  }

  /** The interior points stand where a fresh bracket would put them, and their
      values are the objective's. */
  ghost predicate Placed(b: Bracket, f: real -> Cost, gr: real) {
    && b.lo < b.hi
    && b.c == Lower(b.lo, b.hi, gr) && b.d == Upper(b.lo, b.hi, gr)
    && b.fc == f(b.c) && b.fd == f(b.d)
  }

  function Start(f: real -> Cost, lo: real, hi: real, gr: real): Bracket {
    var c, d := Lower(lo, hi, gr), Upper(lo, hi, gr);
    Bracket(lo, hi, c, d, f(c), f(d))
  }

  /** One iteration: one end moves in, one value is reused, one is computed. */
  function Narrow(b: Bracket, f: real -> Cost, gr: real): Bracket {
    if Less(b.fc, b.fd) then
      var c := Lower(b.lo, b.d, gr);
      Bracket(b.lo, b.d, c, b.c, f(c), b.fc)
    else
      var d := Upper(b.c, b.hi, gr);
      Bracket(b.c, b.hi, b.d, d, b.fd, f(d))
  }

  /** Reusing a point is sound because of the ratio: the old interior point is
      exactly where the narrower bracket wants one. */
  lemma PointsReused(lo: real, hi: real, gr: real)
    requires Golden(gr)
    ensures Upper(lo, Upper(lo, hi, gr), gr) == Lower(lo, hi, gr)
    ensures Lower(Lower(lo, hi, gr), hi, gr) == Upper(lo, hi, gr)
  {
    var w := hi - lo;
    assert gr * (gr * w) == w - gr * w by {
      assert gr * (gr * w) == (gr * gr) * w;
      assert (1.0 - gr) * w == w - gr * w;
    }
  }

  lemma Interior(lo: real, hi: real, gr: real)
    requires Golden(gr) && lo < hi
    ensures lo < Lower(lo, hi, gr) < Upper(lo, hi, gr) < hi
    ensures Upper(lo, hi, gr) - lo == gr * (hi - lo) && hi - Lower(lo, hi, gr) == gr * (hi - lo)
  {
    var w := hi - lo;
    assert gr * w < w by { assert (1.0 - gr) * w > 0.0; }
    assert gr * w > 0.5 * w by { assert (gr - 0.5) * w > 0.0; }
  }

  /** Every iteration keeps the points and values right and shrinks the bracket
      by exactly the ratio, for any objective. */
  lemma NarrowKeeps(b: Bracket, f: real -> Cost, gr: real)
    requires Golden(gr) && Placed(b, f, gr)
    ensures Placed(Narrow(b, f, gr), f, gr) && Narrow(b, f, gr).Width() == gr * b.Width()
  {
    hide Golden, Lower, Upper;
    PointsReused(b.lo, b.hi, gr);
    Interior(b.lo, b.hi, gr);
  }

  /** A unimodal objective's minimiser stays inside exactly unless both points are
      infinite and it lies before them. */
  lemma NarrowBracketsExactly(b: Bracket, f: real -> Cost, gr: real, m: real)
    requires Golden(gr) && Placed(b, f, gr) && Unimodal(f, b.lo, b.hi, m)
    ensures Narrow(b, f, gr).lo <= m <= Narrow(b, f, gr).hi <==> b.Informed() || b.c <= m
  {
    hide Golden, Lower, Upper;
    Interior(b.lo, b.hi, gr);
    assert b.c < b.d;
    assert m > b.d ==> Less(f(b.d), f(b.c)) || BothInfinite(f(b.c), f(b.d));
    assert m < b.c ==> Less(f(b.c), f(b.d)) || BothInfinite(f(b.c), f(b.d));
  }

  /** In particular it stays once one point is finite, and then one always is. */
  lemma NarrowBrackets(b: Bracket, f: real -> Cost, gr: real, m: real)
    requires Golden(gr) && Placed(b, f, gr) && Unimodal(f, b.lo, b.hi, m) && b.Informed()
    ensures Unimodal(f, Narrow(b, f, gr).lo, Narrow(b, f, gr).hi, m) && Narrow(b, f, gr).Informed()
  {
    NarrowBracketsExactly(b, f, gr, m);
    Interior(b.lo, b.hi, gr);
    hide Golden, Lower, Upper, Unimodal;
    UnimodalWithin(f, b.lo, b.hi, m, Narrow(b, f, gr).lo, Narrow(b, f, gr).hi);
  }

  /** An objective that is finite only near the lower end. */
  function Cliff(): real -> Cost {
    (x: real) => if x <= 0.1 then Finite(x) else Infinite
  }

  /** Its minimiser, at the end, is lost by the first step: both points are
      infinite, and the code keeps the upper part. */
  lemma MinimumLost(gr: real)
    requires Golden(gr)
    ensures Unimodal(Cliff(), 0.0, 1.0, 0.0)
    ensures var b := Start(Cliff(), 0.0, 1.0, gr); Placed(b, Cliff(), gr) && 0.0 < Narrow(b, Cliff(), gr).lo
  {
    GoldenBelow(gr);
  }

  lemma GoldenBelow(gr: real)
    requires Golden(gr)
    ensures gr < 0.7
  {
    assert gr >= 0.7 ==> gr * gr >= 0.7 * gr;
  }

  // ----- the refinement loop

  function Power(x: real, k: nat): real {
    if k == 0 then 1.0 else x * Power(x, k - 1)
  }

  lemma Shrinks(w: real, gr: real, k: nat)
    ensures gr * (w * Power(gr, k)) == w * Power(gr, k + 1)
  {
    var p := Power(gr, k);
    assert gr * (w * p) == w * (gr * p);
  }

  /** The bracket after `k` refinements of a start of width `w`; if the start
      held the minimiser `m`, so does the bracket. */
  ghost predicate Refined(b: Bracket, f: real -> Cost, gr: real, w: real, k: nat, m: real, held: bool) {
    Placed(b, f, gr) && b.Width() == w * Power(gr, k) && (held ==> Unimodal(f, b.lo, b.hi, m) && b.Informed())
  }

  lemma RefinedNext(b: Bracket, f: real -> Cost, gr: real, w: real, k: nat, m: real, held: bool)
    requires Golden(gr) && Refined(b, f, gr, w, k, m, held)
    ensures Refined(Narrow(b, f, gr), f, gr, w, k + 1, m, held)
  {
    hide Placed, Unimodal, Golden, Narrow, Power;
    NarrowKeeps(b, f, gr);
    Shrinks(w, gr, k);
    if held {
      NarrowBrackets(b, f, gr, m);
    }
  }

  lemma RefinedStart(f: real -> Cost, lo: real, hi: real, gr: real, m: real, held: bool)
    requires lo < hi && (held ==> Unimodal(f, lo, hi, m) && Start(f, lo, hi, gr).Informed())
    ensures Refined(Start(f, lo, hi, gr), f, gr, hi - lo, 0, m, held)
  {}

  lemma RefinedEnd(b: Bracket, f: real -> Cost, gr: real, w: real, k: nat, m: real)
    requires Refined(b, f, gr, w, k, m, true)
    ensures Abs((b.lo + b.hi) / 2.0 - m) <= w * Power(gr, k) / 2.0
  {}

  /** One pass of the loop body. */
  method NarrowOnce(b: Bracket, f: real -> Cost, gr: real) returns (r: Bracket)
    ensures r == Narrow(b, f, gr)
  {
    hide Lower, Upper;
    var Bracket(llo, lhi, c, d, fc, fd) := b;
    if Less(fc, fd) {
      lhi, d, fd := d, c, fc;
      c := Lower(llo, lhi, gr);
      fc := f(c);
    } else {
      llo, c, fc := c, d, fd;
      d := Upper(llo, lhi, gr);
      fd := f(d);
    }
    return Bracket(llo, lhi, c, d, fc, fd);
  }

  /** Refines a bracket and returns its middle: within half the final width of
      the minimiser, if that was inside at the start and one of the first two
      points was finite. */
  method Refine(f: real -> Cost, lo: real, hi: real, gr: real, steps: nat, ghost m: real) returns (x: real)
    requires Golden(gr) && lo < hi
    ensures Unimodal(f, lo, hi, m) && Start(f, lo, hi, gr).Informed() ==>
      Abs(x - m) <= (hi - lo) * Power(gr, steps) / 2.0
  {
    hide Refined, Golden, Unimodal, Power, Start, Abs, Narrow;
    var b := Start(f, lo, hi, gr);
    ghost var held := Unimodal(f, lo, hi, m) && b.Informed();
    RefinedStart(f, lo, hi, gr, m, held);
    for k := 0 to steps
      invariant Refined(b, f, gr, hi - lo, k, m, held)
    {
      RefinedNext(b, f, gr, hi - lo, k, m, held);
      b := NarrowOnce(b, f, gr);
    }
    x := (b.lo + b.hi) / 2.0;
    if held {
      RefinedEnd(b, f, gr, hi - lo, steps, m);
    }
  }

  // ----- the grid

  /** The i-th of `grid` equally spaced points. */
  function Point(lo: real, hi: real, grid: nat, i: int): real
    requires grid >= 2
  {
    lo + (hi - lo) * (i as real / (grid - 1) as real)
  }

  /** The spacing of the grid. */
  function Spacing(lo: real, hi: real, grid: nat): real
    requires grid >= 2
  {
    (hi - lo) / (grid - 1) as real
  }

  /** Neighbouring points are one spacing apart. */
  lemma PointSpacing(lo: real, hi: real, grid: nat, i: int, k: nat)
    requires grid >= 2
    ensures Point(lo, hi, grid, i + k) - Point(lo, hi, grid, i) == k as real * Spacing(lo, hi, grid)
  {
    var n, w := (grid - 1) as real, hi - lo;
    var s := w / n;
    assert s * n == w;
    var p, q := i as real / n, (i + k) as real / n;
    assert p * n == i as real && q * n == i as real + k as real;
    assert (q - p) * n == k as real;
    assert w * (q - p) == s * n * (q - p) == s * ((q - p) * n);
    assert w * q - w * p == w * (q - p);
  }

  lemma SpacingPositive(lo: real, hi: real, grid: nat)
    requires grid >= 2 && lo < hi
    ensures Spacing(lo, hi, grid) > 0.0
  {}

  lemma PointsIncrease(lo: real, hi: real, grid: nat, i: int, j: int)
    requires grid >= 2 && lo < hi && i < j
    ensures Point(lo, hi, grid, i) < Point(lo, hi, grid, j)
  {
    hide Point, Spacing;
    PointSpacing(lo, hi, grid, i, j - i);
    SpacingPositive(lo, hi, grid);
    var s, k := Spacing(lo, hi, grid), (j - i) as real;
    assert (k - 1.0) * s >= 0.0;
    assert k * s == (k - 1.0) * s + s;
  }

  lemma EndPoints(lo: real, hi: real, grid: nat)
    requires grid >= 2
    ensures Point(lo, hi, grid, 0) == lo && Point(lo, hi, grid, grid - 1) == hi
  {
    var n := (grid - 1) as real;
    assert 0.0 / n == 0.0 && n / n == 1.0;
  }

  lemma PointInside(lo: real, hi: real, grid: nat, i: nat)
    requires grid >= 2 && lo < hi && i < grid
    ensures lo <= Point(lo, hi, grid, i) <= hi
  {
    EndPoints(lo, hi, grid);
    hide Point;
    if i > 0 {
      PointsIncrease(lo, hi, grid, 0, i);
    }
    if i < grid - 1 {
      PointsIncrease(lo, hi, grid, i, grid - 1);
    }
  }

  /** Grid point `i` is the first of smallest cost. */
  ghost predicate FirstSmallest(f: real -> Cost, lo: real, hi: real, grid: nat, i: nat)
    requires grid >= 2
  {
    && i < grid
    && (forall j :: 0 <= j < grid ==> !Less(f(Point(lo, hi, grid, j)), f(Point(lo, hi, grid, i))))
    && (forall j :: 0 <= j < i ==> Less(f(Point(lo, hi, grid, i)), f(Point(lo, hi, grid, j))))
  }

  method GridMinimum(f: real -> Cost, lo: real, hi: real, grid: nat) returns (best: nat)
    requires grid >= 2
    ensures FirstSmallest(f, lo, hi, grid, best)
  {
    hide Point;
    best := 0;
    var least := Infinite;
    for i := 0 to grid
      invariant best < grid && (i == 0 ==> best == 0 && least == Infinite)
      invariant i > 0 ==> best < i && least == f(Point(lo, hi, grid, best))
      invariant forall j :: 0 <= j < i ==> !Less(f(Point(lo, hi, grid, j)), least)
      invariant forall j :: 0 <= j < best ==> Less(least, f(Point(lo, hi, grid, j)))
    {
      var r := f(Point(lo, hi, grid, i));
      if Less(r, least) {
        best, least := i, r;
      }
    }
  }

  /** The neighbours of the grid minimum bracket the minimiser, if that minimum is
      finite. */
  lemma GridBrackets(f: real -> Cost, lo: real, hi: real, grid: nat, best: nat, m: real)
    requires grid >= 2 && lo < hi && best < grid && Unimodal(f, lo, hi, m)
    requires FirstSmallest(f, lo, hi, grid, best) && f(Point(lo, hi, grid, best)).Finite?
    ensures lo <= Point(lo, hi, grid, Before(best)) <= m
    ensures m <= Point(lo, hi, grid, Behind(best, grid)) <= hi
  {
    hide Point;
    var p := Point(lo, hi, grid, best);
    PointInside(lo, hi, grid, best);
    PointInside(lo, hi, grid, Before(best));
    PointInside(lo, hi, grid, Behind(best, grid));
    EndPoints(lo, hi, grid);
    if best > 0 {
      var q := Point(lo, hi, grid, best - 1);
      PointsIncrease(lo, hi, grid, best - 1, best);
      assert m < q ==> Less(f(q), f(p)) || BothInfinite(f(q), f(p));
    }
    if best + 1 < grid {
      var q := Point(lo, hi, grid, best + 1);
      PointsIncrease(lo, hi, grid, best, best + 1);
      assert m > q ==> Less(f(q), f(p)) || BothInfinite(f(p), f(q));
    }
  }

  function Before(i: nat): nat {
    if i > 0 then i - 1 else 0
  }

  function Behind(i: nat, grid: nat): nat
    requires grid > 0
  {
    if i + 1 < grid then i + 1 else grid - 1
  }

  /** The grid finds a finite cost, and so does the refinement with one of its
      first two points. */
  ghost predicate Located(f: real -> Cost, lo: real, hi: real, grid: nat)
    requires grid >= 2
  {
    forall i: nat, gr :: FirstSmallest(f, lo, hi, grid, i) && Golden(gr) ==>
      f(Point(lo, hi, grid, i)).Finite? &&
      Start(f, Point(lo, hi, grid, Before(i)), Point(lo, hi, grid, Behind(i, grid)), gr).Informed()
  }

  /** Between two finite costs a unimodal objective is finite. */
  lemma FiniteBetween(f: real -> Cost, lo: real, hi: real, m: real, a: real, x: real, b: real)
    requires Unimodal(f, lo, hi, m) && lo <= a < x < b <= hi && f(a).Finite? && f(b).Finite?
    ensures f(x).Finite?
  {
    if x < m {
      assert Less(f(x), f(a)) || BothInfinite(f(a), f(x));
    } else if x > m {
      assert Less(f(x), f(b)) || BothInfinite(f(x), f(b));
    }
  }

  /** So it is enough that the costs next to the smallest on the grid are finite. */
  lemma FiniteNeighbours(f: real -> Cost, lo: real, hi: real, grid: nat, m: real)
    requires grid >= 2 && lo < hi && Unimodal(f, lo, hi, m)
    requires forall i: nat :: FirstSmallest(f, lo, hi, grid, i) ==>
      f(Point(lo, hi, grid, i)).Finite? && f(Point(lo, hi, grid, Before(i))).Finite? &&
      f(Point(lo, hi, grid, Behind(i, grid))).Finite?
    ensures Located(f, lo, hi, grid)
  {
    hide Point, Golden, Unimodal, FirstSmallest, Start;
    forall i: nat, gr | FirstSmallest(f, lo, hi, grid, i) && Golden(gr)
      ensures Start(f, Point(lo, hi, grid, Before(i)), Point(lo, hi, grid, Behind(i, grid)), gr).Informed()
    {
      SmallestInside(f, lo, hi, grid, i);
      InformedBetween(f, lo, hi, grid, m, Before(i), Behind(i, grid), gr);
    }
  }

  lemma InformedBetween(f: real -> Cost, lo: real, hi: real, grid: nat, m: real, i: nat, j: nat, gr: real)
    requires grid >= 2 && lo < hi && Unimodal(f, lo, hi, m) && i < j < grid && j <= i + 2 && Golden(gr)
    requires f(Point(lo, hi, grid, i)).Finite? && f(Point(lo, hi, grid, j)).Finite?
    ensures Start(f, Point(lo, hi, grid, i), Point(lo, hi, grid, j), gr).Informed()
  {
    var a, b := Point(lo, hi, grid, i), Point(lo, hi, grid, j);
    PointInside(lo, hi, grid, i);
    PointInside(lo, hi, grid, j);
    PointsIncrease(lo, hi, grid, i, j);
    hide Point, Golden, Unimodal, Lower, Upper;
    Interior(a, b, gr);
    FiniteBetween(f, lo, hi, m, a, Lower(a, b, gr), b);
  }

  lemma PowerPositive(x: real, k: nat)
    requires x > 0.0
    ensures Power(x, k) > 0.0
  {
    if k > 0 {
      PowerPositive(x, k - 1);
    }
  }

  lemma Halved(w: real, v: real, p: real)
    requires w <= 2.0 * v && p > 0.0
    ensures w * p / 2.0 <= v * p
  {
    assert (2.0 * v - w) * p >= 0.0;
    assert 2.0 * (v * p) - w * p == (2.0 * v - w) * p;
  }

  lemma BracketWidth(lo: real, hi: real, grid: nat, i: nat, j: nat)
    requires grid >= 2 && lo < hi && i < j <= i + 2
    ensures Point(lo, hi, grid, i) < Point(lo, hi, grid, j) <= Point(lo, hi, grid, i) + 2.0 * Spacing(lo, hi, grid)
  {
    PointsIncrease(lo, hi, grid, i, j);
    PointSpacing(lo, hi, grid, i, j - i);
    SpacingPositive(lo, hi, grid);
    hide Point, Spacing;
  }

  /** The whole search: for an objective unimodal, over the range searched, in the
      logarithm of the time constant, and located by the grid, the result is
      within one grid spacing, shrunk by the ratio at every refinement, of the
      minimiser. */
  method Search(f: real -> Cost, lo: real, hi: real, grid: nat, steps: nat, sqrt: real -> real, ghost m: real)
    returns (x: real)
    requires IsSqrt(sqrt) && grid >= 2 && lo < hi
    ensures Unimodal(f, lo, hi, m) && Located(f, lo, hi, grid) ==>
      forall gr :: Golden(gr) ==> Abs(x - m) <= Spacing(lo, hi, grid) * Power(gr, steps)
  {
    hide Unimodal, Point, Power, Golden, IsSqrt, Spacing, Abs, FirstSmallest, Start;
    var best := GridMinimum(f, lo, hi, grid);
    SmallestInside(f, lo, hi, grid, best);
    var i, j := Before(best), Behind(best, grid);
    var llo, lhi := Point(lo, hi, grid, i), Point(lo, hi, grid, j);
    BracketWidth(lo, hi, grid, i, j);
    var ratio := GoldenRatio(sqrt);
    x := Refine(f, llo, lhi, ratio, steps, m);
    if Unimodal(f, lo, hi, m) && Located(f, lo, hi, grid) {
      GridBrackets(f, lo, hi, grid, best, m);
      UnimodalWithin(f, lo, hi, m, llo, lhi);
      GoldenPositive(ratio);
      PowerPositive(ratio, steps);
      Halved(lhi - llo, Spacing(lo, hi, grid), Power(ratio, steps));
      forall gr | Golden(gr) ensures gr == ratio {
        GoldenUnique(gr, ratio);
      }
    }
  }

  lemma SmallestInside(f: real -> Cost, lo: real, hi: real, grid: nat, i: nat)
    requires grid >= 2 && FirstSmallest(f, lo, hi, grid, i)
    ensures i < grid
  {}

  /** There is only one such ratio. */
  lemma GoldenUnique(x: real, y: real)
    requires Golden(x) && Golden(y)
    ensures x == y
  {
    assert (x - y) * (x + y + 1.0) == (x * x + x) - (y * y + y);
  }

  lemma GoldenPositive(gr: real)
    requires Golden(gr)
    ensures gr > 0.0
  {}
}
