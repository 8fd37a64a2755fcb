/** The closed-form accelerometer fit from six axis-aligned poses. */
module SixPointFit {
  import opened Reals
  import opened Matrix3
  import opened Jacobi

  const COS_MIN := 0.8
  const NORM_MIN := 1e-6
  const DET_MIN := 1e-9

  /** A side is an axis and a sign: 0 for the positive face, 1 for the negative. */
  datatype Side = Side(axis: nat, sign: nat) {
    predicate Valid() {
      axis < 3 && sign < 2
    }
  }

  function Norm2(p: Vec3): real {
    p.x * p.x + p.y * p.y + p.z * p.z
  }

  predicate Usable(p: Vec3) {
    Norm2(p) >= NORM_MIN
  }

  function Cosine(sqrt: real -> real, p: Vec3, a: nat): real
    requires a < 3 && sqrt(Norm2(p)) != 0.0
  {
    p.At(a) * (1.0 / sqrt(Norm2(p)))
  }

  /** The cosine between the pose and the side. */
  function Facing(sqrt: real -> real, p: Vec3, s: Side): real
    requires s.Valid() && sqrt(Norm2(p)) != 0.0
  {
    if s.sign == 0 then Cosine(sqrt, p, s.axis) else -Cosine(sqrt, p, s.axis)
  }

  /** The pose is aligned with the side closely enough to stand for it. */
  predicate Clears(sqrt: real -> real, p: Vec3, s: Side)
    requires s.Valid()
  {
    Usable(p) && sqrt(Norm2(p)) != 0.0 && Facing(sqrt, p, s) > COS_MIN
  }

  lemma UsableNorm(sqrt: real -> real, p: Vec3)
    requires IsSqrt(sqrt) && Usable(p)
    ensures sqrt(Norm2(p)) > 0.0
  {
    var r := sqrt(Norm2(p));
    assert r * r == Norm2(p);
    assert r != 0.0;
  }

  lemma TwoCosines(x: real, y: real, n: real, r: real)
    requires r > 0.0 && r * r == n && x * x + y * y <= n
    ensures x * (1.0 / r) * (x * (1.0 / r)) + y * (1.0 / r) * (y * (1.0 / r)) <= 1.0
  {
    var k := 1.0 / r;
    assert k * r == 1.0;
    assert n * (k * k) == (k * r) * (k * r);
    assert k * k >= 0.0;
    Times(x * x + y * y, n, k * k);
    assert x * k * (x * k) + y * k * (y * k) == (x * x + y * y) * (k * k);
  }

  lemma AxesBelowNorm(p: Vec3, a: nat, b: nat)
    requires a < 3 && b < 3 && a != b
    ensures p.At(a) * p.At(a) + p.At(b) * p.At(b) <= Norm2(p)
  {
    assert p.x * p.x >= 0.0 && p.y * p.y >= 0.0 && p.z * p.z >= 0.0;
  }

  lemma SquareAbove(c: real)
    requires c > COS_MIN || -c > COS_MIN
    ensures c * c > 0.64
  {
    if c > COS_MIN {
      assert (c - 0.8) * (c + 0.8) > 0.0;
    } else {
      assert (-c - 0.8) * (-c + 0.8) > 0.0;
    }
  }

  lemma CosinesBelowOne(sqrt: real -> real, p: Vec3, a: nat, b: nat)
    requires IsSqrt(sqrt) && a < 3 && b < 3 && a != b && Usable(p) && sqrt(Norm2(p)) != 0.0
    ensures Cosine(sqrt, p, a) * Cosine(sqrt, p, a) + Cosine(sqrt, p, b) * Cosine(sqrt, p, b) <= 1.0
  {
    hide Norm2, Vec3.At;
    UsableNorm(sqrt, p);
    AxesBelowNorm(p, a, b);
    TwoCosines(p.At(a), p.At(b), Norm2(p), sqrt(Norm2(p)));
  }

  /** No pose clears two sides, so no pose can ever be claimed twice. */
  lemma NoTwoSides(sqrt: real -> real, p: Vec3, s: Side, t: Side)
    requires IsSqrt(sqrt) && s.Valid() && t.Valid()
    requires Clears(sqrt, p, s) && Clears(sqrt, p, t)
    ensures s == t
  {
    hide IsSqrt, Cosine, Norm2;
    if s.axis != t.axis {
      var c, d := Cosine(sqrt, p, s.axis), Cosine(sqrt, p, t.axis);
      CosinesBelowOne(sqrt, p, s.axis, t.axis);
      SquareAbove(c);
      SquareAbove(d);
      assert false;
    }
  }

  // ----- choosing a pose for every side

  /** `sel` is the best pose for side `s` among the first `k`, or -1 if none clears it. */
  ghost predicate Best(sqrt: real -> real, pts: seq<Vec3>, k: nat, s: Side, sel: int, best: real)
    requires s.Valid() && k <= |pts|
  {
    && (sel == -1 || 0 <= sel < k)
    && (sel == -1 ==> best == COS_MIN)
    && (sel >= 0 ==> Clears(sqrt, pts[sel], s) && best == Facing(sqrt, pts[sel], s))
    && forall p :: 0 <= p < k && Clears(sqrt, pts[p], s) ==> sel >= 0 && Facing(sqrt, pts[p], s) <= best
  }

  ghost predicate AllBest(sqrt: real -> real, pts: seq<Vec3>, k: nat, sel: array2<int>, best: array2<real>)
    reads sel, best
    requires k <= |pts| && sel.Length0 == best.Length0 == 3 && sel.Length1 == best.Length1 == 2
  {
    forall a, s :: 0 <= a < 3 && 0 <= s < 2 ==> Best(sqrt, pts, k, Side(a, s), sel[a, s], best[a, s])
  }

  /** One pose against one axis: each face keeps the better of the two. */
  lemma Improve(sqrt: real -> real, pts: seq<Vec3>, k: nat, s: Side, sel: int, best: real, c: real)
    requires s.Valid() && k < |pts| && Best(sqrt, pts, k, s, sel, best)
    requires Usable(pts[k]) && sqrt(Norm2(pts[k])) != 0.0 && c == Facing(sqrt, pts[k], s)
    ensures c > best ==> Best(sqrt, pts, k + 1, s, k, c)
    ensures c <= best ==> Best(sqrt, pts, k + 1, s, sel, best)
  {}

  lemma FacingIs(sqrt: real -> real, p: Vec3, a: nat, c: real)
    requires a < 3 && sqrt(Norm2(p)) != 0.0 && c == p.At(a) * (1.0 / sqrt(Norm2(p)))
    ensures Facing(sqrt, p, Side(a, 0)) == c && Facing(sqrt, p, Side(a, 1)) == -c
  {}

  method ConsiderAxis(sqrt: real -> real, pts: seq<Vec3>, k: nat, a: nat, c: real, sel: array2<int>, best: array2<real>)
    requires k < |pts| && a < 3 && sel.Length0 == best.Length0 == 3 && sel.Length1 == best.Length1 == 2
    requires Usable(pts[k]) && sqrt(Norm2(pts[k])) != 0.0 && c == pts[k].At(a) * (1.0 / sqrt(Norm2(pts[k])))
    requires forall s :: 0 <= s < 2 ==> Best(sqrt, pts, k, Side(a, s), sel[a, s], best[a, s])
    modifies sel, best
    ensures forall s :: 0 <= s < 2 ==> Best(sqrt, pts, k + 1, Side(a, s), sel[a, s], best[a, s])
    ensures forall i, s :: 0 <= i < 3 && i != a && 0 <= s < 2 ==>
      sel[i, s] == old(sel[i, s]) && best[i, s] == old(best[i, s])
  {
    hide Norm2, Facing, Best, Vec3.At;
    FacingIs(sqrt, pts[k], a, c);
    Improve(sqrt, pts, k, Side(a, 0), sel[a, 0], best[a, 0], c);
    Improve(sqrt, pts, k, Side(a, 1), sel[a, 1], best[a, 1], -c);
    if c > best[a, 0] {
      best[a, 0] := c;
      sel[a, 0] := k;
    }
    if -c > best[a, 1] {
      best[a, 1] := -c;
      sel[a, 1] := k;
    }
  }

  method Consider(sqrt: real -> real, pts: seq<Vec3>, k: nat, sel: array2<int>, best: array2<real>)
    requires IsSqrt(sqrt) && k < |pts|
    requires sel.Length0 == best.Length0 == 3 && sel.Length1 == best.Length1 == 2
    requires AllBest(sqrt, pts, k, sel, best)
    modifies sel, best
    ensures AllBest(sqrt, pts, k + 1, sel, best)
  {
    var pt := pts[k];
    var n2 := pt.x * pt.x + pt.y * pt.y + pt.z * pt.z;
    assert n2 == Norm2(pt);
    hide IsSqrt, Norm2, Facing, Vec3.At;
    if n2 < NORM_MIN {
      return;
    }
    hide Best;
    UsableNorm(sqrt, pt);
    var invN := 1.0 / sqrt(n2);
    for a := 0 to 3
      invariant forall i, s :: 0 <= i < a && 0 <= s < 2 ==> Best(sqrt, pts, k + 1, Side(i, s), sel[i, s], best[i, s])
      invariant forall i, s :: a <= i < 3 && 0 <= s < 2 ==> Best(sqrt, pts, k, Side(i, s), sel[i, s], best[i, s])
    {
      ConsiderAxis(sqrt, pts, k, a, pt.At(a) * invN, sel, best);
    }
  }

  method Select(sqrt: real -> real, pts: seq<Vec3>) returns (sel: array2<int>, best: array2<real>)
    requires IsSqrt(sqrt)
    ensures fresh(sel) && fresh(best)
    ensures sel.Length0 == best.Length0 == 3 && sel.Length1 == best.Length1 == 2
    ensures AllBest(sqrt, pts, |pts|, sel, best)
  {
    sel := new int[3, 2]((i, j) => -1);
    best := new real[3, 2]((i, j) => COS_MIN);
    for k := 0 to |pts|
      invariant AllBest(sqrt, pts, k, sel, best)
    {
      Consider(sqrt, pts, k, sel, best);
    }
  }

  // ----- the fit

  datatype Outcome = Fitted | TooFew | MissingSide | DuplicatePose | Singular

  const SIDES: seq<Side> := [Side(0, 0), Side(0, 1), Side(1, 0), Side(1, 1), Side(2, 0), Side(2, 1)]

  /** Some pose stands for the side. */
  ghost predicate Covered(sqrt: real -> real, pts: seq<Vec3>, s: Side)
    requires s.Valid()
  {
    exists p :: 0 <= p < |pts| && Clears(sqrt, pts[p], s)
  }

  /** Pose `p` clears the side, and no other pose that clears it faces it better. */
  ghost predicate BestFor(sqrt: real -> real, pts: seq<Vec3>, s: Side, p: int)
    requires s.Valid()
  {
    && 0 <= p < |pts|
    && Clears(sqrt, pts[p], s)
    && forall q :: 0 <= q < |pts| && Clears(sqrt, pts[q], s) ==> Facing(sqrt, pts[q], s) <= Facing(sqrt, pts[p], s)
  }

  /** Six indices of poses. */
  predicate Poses(pts: seq<Vec3>, chosen: seq<int>) {
    |chosen| == 6 && forall i :: 0 <= i < 6 ==> 0 <= chosen[i] < |pts|
  }

  /** `chosen[i]` is the pose that stands for the i-th side. */
  ghost predicate Choice(sqrt: real -> real, pts: seq<Vec3>, chosen: seq<int>) {
    Poses(pts, chosen) && forall i :: 0 <= i < 6 ==> BestFor(sqrt, pts, SIDES[i], chosen[i])
  }

  lemma BestStands(sqrt: real -> real, pts: seq<Vec3>, s: Side, sel: int, best: real)
    requires s.Valid() && Best(sqrt, pts, |pts|, s, sel, best)
    ensures sel < 0 ==> !Covered(sqrt, pts, s)
    ensures sel >= 0 ==> sel < |pts| && BestFor(sqrt, pts, s, sel)
  {
    hide Clears, Facing, Norm2;
  }

  lemma StandsClears(sqrt: real -> real, pts: seq<Vec3>, s: Side, p: int)
    requires s.Valid() && BestFor(sqrt, pts, s, p)
    ensures 0 <= p < |pts| && Clears(sqrt, pts[p], s) && Covered(sqrt, pts, s)
  {
    hide Clears, Facing, Norm2;
  }

  /** The midpoint of opposing sides, axis by axis. */
  function Midpoint(pts: seq<Vec3>, chosen: seq<int>): Vec3
    requires Poses(pts, chosen)
  {
    Vec3(0.5 * (pts[chosen[0]].x + pts[chosen[1]].x),
         0.5 * (pts[chosen[2]].y + pts[chosen[3]].y),
         0.5 * (pts[chosen[4]].z + pts[chosen[5]].z))
  }

  /** The three positive poses about the offset, one per row. */
  function Frame(pts: seq<Vec3>, chosen: seq<int>): Mat3
    requires Poses(pts, chosen)
  {
    var o := Midpoint(pts, chosen);
    Mat3(Sub(pts[chosen[0]], o), Sub(pts[chosen[2]], o), Sub(pts[chosen[4]], o))
  }

  /** g / det times the diagonal cofactors; the others are discarded. */
  function AxisScales(a: Mat3, g: real): Mat3
    requires Det(a) != 0.0
  {
    var k := g / Det(a);
    Diag(Vec3(Cross(a.r1, a.r2).x * k, Cross(a.r2, a.r0).y * k, Cross(a.r0, a.r1).z * k))
  }

  // ----- what the scales are

  /** `m` takes the three rows of `a` to `g` along the three axes. */
  ghost predicate TakesToAxes(m: Mat3, a: Mat3, g: real) {
    Apply(m, a.r0) == Vec3(g, 0.0, 0.0) && Apply(m, a.r1) == Vec3(0.0, g, 0.0) && Apply(m, a.r2) == Vec3(0.0, 0.0, g)
  }

  lemma TakesIsProduct(m: Mat3, a: Mat3, g: real)
    ensures TakesToAxes(m, a, g) <==> Mul(m, Transpose(a)) == MatScale(g, ID)
  {
    var t := Mul(m, Transpose(a));
    assert Transpose(a).Col(0) == a.r0 && Transpose(a).Col(1) == a.r1 && Transpose(a).Col(2) == a.r2;
    hide Dot;
  }

  /** Only one matrix does. */
  lemma TakesOnce(m: Mat3, n: Mat3, a: Mat3, g: real)
    requires Det(a) != 0.0 && TakesToAxes(m, a, g) && TakesToAxes(n, a, g)
    ensures m == n
  {
    TakesIsProduct(m, a, g);
    TakesIsProduct(n, a, g);
    DetTranspose(a);
    hide Det, Mul, Transpose, MatScale, TakesToAxes;
    CancelRight(m, n, Transpose(a));
  }

  /** All nine cofactors, scaled. */
  ghost function AllScales(a: Mat3, g: real): Mat3
    requires Det(a) != 0.0
  {
    MatScale(g / Det(a), Mat3(Cross(a.r1, a.r2), Cross(a.r2, a.r0), Cross(a.r0, a.r1)))
  }

  lemma ScaledDot(k: real, c: Vec3, v: Vec3, d: real, e: real)
    requires Dot(c, v) == d && e == k * d
    ensures Dot(Scale(k, c), v) == e
  {
    DotScale(k, c, v);
  }

  lemma AllScalesTake(a: Mat3, g: real)
    requires Det(a) != 0.0
    ensures TakesToAxes(AllScales(a, g), a, g)
  {
    var p, q, r, d := a.r0, a.r1, a.r2, Det(a);
    var k := g / d;
    assert k * d == g;
    CrossSelf(p, q);
    CrossSelf(q, r);
    CrossSelf(r, p);
    Cyclic(p, q, r);
    Cyclic(q, r, p);
    hide Dot, Cross, Scale;
    forall u, v ensures Dot(u, v) == Dot(v, u) {
      DotSwap(u, v);
    }
    ScaledDot(k, Cross(q, r), p, d, g);
    ScaledDot(k, Cross(r, p), p, 0.0, 0.0);
    ScaledDot(k, Cross(p, q), p, 0.0, 0.0);
    ScaledDot(k, Cross(q, r), q, 0.0, 0.0);
    ScaledDot(k, Cross(r, p), q, d, g);
    ScaledDot(k, Cross(p, q), q, 0.0, 0.0);
    ScaledDot(k, Cross(q, r), r, 0.0, 0.0);
    ScaledDot(k, Cross(r, p), r, 0.0, 0.0);
    ScaledDot(k, Cross(p, q), r, d, g);
  }

  /** The matrix stored is the diagonal of the one matrix that takes the positive
      poses, less the offset, to `g` along their axes, whatever their tilt. */
  lemma ScalesAreDiagonal(a: Mat3, g: real, m: Mat3)
    requires Det(a) != 0.0 && TakesToAxes(m, a, g)
    ensures AxisScales(a, g) == Diag(Diagonal(m))
  {
    AllScalesTake(a, g);
    TakesOnce(m, AllScales(a, g), a, g);
    hide Cross, Det;
  }

  /** The diagonal of the matrix that takes the chosen positive poses, seen from
      `o`, to `g` along their axes. */
  ghost predicate AxisDiagonal(d: Mat3, pts: seq<Vec3>, chosen: seq<int>, o: Vec3, g: real)
    requires Poses(pts, chosen)
  {
    exists m :: d == Diag(Diagonal(m)) &&
      Apply(m, Sub(pts[chosen[0]], o)) == Vec3(g, 0.0, 0.0) &&
      Apply(m, Sub(pts[chosen[2]], o)) == Vec3(0.0, g, 0.0) &&
      Apply(m, Sub(pts[chosen[4]], o)) == Vec3(0.0, 0.0, g)
  }

  lemma StoredIsDiagonal(pts: seq<Vec3>, chosen: seq<int>, g: real)
    requires Poses(pts, chosen) && Det(Frame(pts, chosen)) != 0.0
    ensures AxisDiagonal(AxisScales(Frame(pts, chosen), g), pts, chosen, Midpoint(pts, chosen), g)
  {
    var a := Frame(pts, chosen);
    var m := AllScales(a, g);
    AllScalesTake(a, g);
    ScalesAreDiagonal(a, g, m);
    hide Det, AllScales, AxisScales, Midpoint;
    assert Apply(m, Sub(pts[chosen[0]], Midpoint(pts, chosen))) == Vec3(g, 0.0, 0.0);
  }

  /** What facing a side means: the cosine times the length is the component
      towards it. */
  lemma FacingIsComponent(sqrt: real -> real, p: Vec3, a: nat, n: real)
    requires IsSqrt(sqrt) && a < 3 && n == p.x * p.x + p.y * p.y + p.z * p.z && n >= 1e-6
    ensures sqrt(n) > 0.0 && sqrt(Norm2(p)) != 0.0
    ensures Facing(sqrt, p, Side(a, 0)) * sqrt(n) == p.At(a) && Facing(sqrt, p, Side(a, 1)) * sqrt(n) == -p.At(a)
  {
    assert n == Norm2(p);
    UsableNorm(sqrt, p);
    CosineTimes(p.At(a), sqrt(n));
  }

  lemma CosineTimes(x: real, r: real)
    requires r > 0.0
    ensures x * (1.0 / r) * r == x && -(x * (1.0 / r)) * r == -x
  {
    var k := 1.0 / r;
    assert k * r == 1.0;
    assert x * k * r == x * (k * r);
  }

  /** And standing for it: long enough, and more than 0.8 of the length. */
  lemma ClearsExactly(sqrt: real -> real, p: Vec3, a: nat, n: real)
    requires IsSqrt(sqrt) && a < 3 && n == p.x * p.x + p.y * p.y + p.z * p.z
    ensures Clears(sqrt, p, Side(a, 0)) <==> n >= 1e-6 && p.At(a) > 0.8 * sqrt(n)
    ensures Clears(sqrt, p, Side(a, 1)) <==> n >= 1e-6 && -p.At(a) > 0.8 * sqrt(n)
  {
    assert n == Norm2(p);
    if n >= 1e-6 {
      FacingIsComponent(sqrt, p, a, n);
      hide Facing, IsSqrt, Norm2;
      AboveTimes(Facing(sqrt, p, Side(a, 0)), sqrt(n), p.At(a));
      AboveTimes(Facing(sqrt, p, Side(a, 1)), sqrt(n), -p.At(a));
    }
  }

  lemma AboveTimes(c: real, r: real, x: real)
    requires r > 0.0 && c * r == x
    ensures c > 0.8 <==> x > 0.8 * r
  {
    if c > 0.8 {
      Positive(c - 0.8, r);
    } else {
      Times(c, 0.8, r);
    }
  }

  /** Which sides were picked, if all six are there and no pose is claimed twice. */
  method Claim(sqrt: real -> real, pts: seq<Vec3>, sel: array2<int>, best: array2<real>)
    returns (outcome: Outcome, used: seq<int>)
    requires sel.Length0 == best.Length0 == 3 && sel.Length1 == best.Length1 == 2
    requires AllBest(sqrt, pts, |pts|, sel, best)
    ensures outcome.Fitted? || outcome.MissingSide? || outcome.DuplicatePose?
    ensures outcome.Fitted? ==> Choice(sqrt, pts, used)
    ensures outcome.MissingSide? ==> exists i :: 0 <= i < 6 && !Covered(sqrt, pts, SIDES[i])
    ensures outcome.DuplicatePose? ==>
      exists p, i, j :: 0 <= p < |pts| && 0 <= i < j < 6 &&
        Clears(sqrt, pts[p], SIDES[i]) && Clears(sqrt, pts[p], SIDES[j])
  {
    hide Clears, Facing, Norm2, Best, BestFor, Covered;
    used := [];
    for n := 0 to 6
      invariant |used| == n
      invariant forall i :: 0 <= i < n ==> 0 <= used[i] < |pts| && BestFor(sqrt, pts, SIDES[i], used[i])
    {
      var side := SIDES[n];
      var p := sel[side.axis, side.sign];
      BestStands(sqrt, pts, side, p, best[side.axis, side.sign]);
      if p < 0 {
        return MissingSide, used;
      }
      for u := 0 to |used| {
        if used[u] == p {
          StandsClears(sqrt, pts, SIDES[u], p);
          StandsClears(sqrt, pts, SIDES[n], p);
          return DuplicatePose, used;
        }
      }
      used := used + [p];
    }
    return Fitted, used;
  }

  ghost predicate AllCovered(sqrt: real -> real, pts: seq<Vec3>) {
    forall i :: 0 <= i < 6 ==> Covered(sqrt, pts, SIDES[i])
  }

  method StoreOffset(pts: seq<Vec3>, chosen: seq<int>, offset: array<real>)
    requires offset.Length == 3 && Poses(pts, chosen)
    modifies offset
    ensures Vec3(offset[0], offset[1], offset[2]) == Midpoint(pts, chosen)
  {
    for k := 0 to 3
      invariant k > 0 ==> offset[0] == 0.5 * (pts[chosen[0]].x + pts[chosen[1]].x)
      invariant k > 1 ==> offset[1] == 0.5 * (pts[chosen[2]].y + pts[chosen[3]].y)
      invariant k > 2 ==> offset[2] == 0.5 * (pts[chosen[4]].z + pts[chosen[5]].z)
    {
      offset[k] := 0.5 * (pts[chosen[2 * k]].At(k) + pts[chosen[2 * k + 1]].At(k));
    }
  }

  /** Writes all nine cofactors, then discards the six off the diagonal. */
  method StoreScales(a: Mat3, g: real, soft: array2<real>)
    requires soft.Length0 == soft.Length1 == 3 && Det(a) != 0.0
    modifies soft
    ensures ToMat(soft) == AxisScales(a, g)
  {
    var c0, c1, c2 := Cross(a.r1, a.r2), Cross(a.r2, a.r0), Cross(a.r0, a.r1);
    var inv := g / Dot(a.r0, c0);
    soft[0, 0], soft[0, 1], soft[0, 2] := c0.x * inv, c0.y * inv, c0.z * inv;
    soft[1, 0], soft[1, 1], soft[1, 2] := c1.x * inv, c1.y * inv, c1.z * inv;
    soft[2, 0], soft[2, 1], soft[2, 2] := c2.x * inv, c2.y * inv, c2.z * inv;
    soft[0, 1], soft[0, 2], soft[1, 0], soft[1, 2], soft[2, 0], soft[2, 1] := 0.0, 0.0, 0.0, 0.0, 0.0, 0.0;
  }

  /** The fit succeeds exactly when there are six poses, every side is covered
      and the frame of the chosen poses is not near-singular; the duplicate-pose
      rejection is never taken.  The offset has already been overwritten when
      the frame is found singular. */
  method FitSixPoint(pts: seq<Vec3>, g: real, offset: array<real>, soft: array2<real>, sqrt: real -> real)
    returns (outcome: Outcome, ghost chosen: seq<int>)
    requires IsSqrt(sqrt) && offset.Length == 3 && soft.Length0 == soft.Length1 == 3
    modifies offset, soft
    ensures outcome.TooFew? <==> |pts| < 6
    ensures outcome.MissingSide? <==> |pts| >= 6 && !AllCovered(sqrt, pts)
    ensures !outcome.DuplicatePose?
    ensures outcome.Fitted? || outcome.Singular? ==> Choice(sqrt, pts, chosen)
    ensures outcome.Fitted? || outcome.Singular? ==>
      offset[0] == 0.5 * (pts[chosen[0]].x + pts[chosen[1]].x) &&
      offset[1] == 0.5 * (pts[chosen[2]].y + pts[chosen[3]].y) &&
      offset[2] == 0.5 * (pts[chosen[4]].z + pts[chosen[5]].z)
    ensures outcome.Singular? ==> Abs(Det(Frame(pts, chosen))) < 1e-9
    ensures outcome.Fitted? ==>
      Abs(Det(Frame(pts, chosen))) >= 1e-9 && ToMat(soft) == AxisScales(Frame(pts, chosen), g)
    ensures outcome.Fitted? ==>
      AxisDiagonal(ToMat(soft), pts, chosen, Vec3(offset[0], offset[1], offset[2]), g)
    ensures !outcome.Fitted? ==> ToMat(soft) == old(ToMat(soft))
    ensures outcome.TooFew? || outcome.MissingSide? ==> offset[..] == old(offset[..])
  {
    hide Clears, IsSqrt, Det, AxisScales, Best, BestFor, Covered, AxisDiagonal;
    chosen := [];
    if |pts| < 6 {
      return TooFew, chosen;
    }
    var sel, best := Select(sqrt, pts);
    var used;
    outcome, used := Claim(sqrt, pts, sel, best);
    if outcome.MissingSide? {
      return outcome, chosen;
    }
    if outcome.DuplicatePose? {
      ghost var p, i, j :| 0 <= p < |pts| && 0 <= i < j < 6 &&
        Clears(sqrt, pts[p], SIDES[i]) && Clears(sqrt, pts[p], SIDES[j]);
      NoTwoSides(sqrt, pts[p], SIDES[i], SIDES[j]);
      assert false;
    }
    chosen := used;
    forall i | 0 <= i < 6 ensures Covered(sqrt, pts, SIDES[i]) {
      StandsClears(sqrt, pts, SIDES[i], used[i]);
    }
    StoreOffset(pts, used, offset);
    var a := Frame(pts, used);
    var det := Det(a);
    if Abs(det) < DET_MIN {
      return Singular, chosen;
    }
    StoreScales(a, g, soft);
    StoredIsDiagonal(pts, used, g);
    return Fitted, chosen;
  }

  // ----- ideal poses

  function Axis(k: nat): Vec3
    requires k < 3
  {
    ID.Row(k)
  }

  /** The pose that faces side `s` on a sensor with bias `o` and per-axis gain `h`. */
  function IdealPose(o: Vec3, h: Vec3, s: Side): Vec3
    requires s.Valid()
  {
    var e := Scale(h.At(s.axis), Axis(s.axis));
    if s.sign == 0 then Add(o, e) else Sub(o, e)
  }

  /** Every pose is ideal for the side `face` gives it, and clears that side. */
  ghost predicate IdealSet(sqrt: real -> real, pts: seq<Vec3>, o: Vec3, h: Vec3, face: seq<Side>) {
    |face| == |pts| && forall p :: 0 <= p < |pts| ==>
      face[p].Valid() && pts[p] == IdealPose(o, h, face[p]) && Clears(sqrt, pts[p], face[p])
  }

  /** The chosen pose for a side is the ideal pose for that side. */
  lemma ChosenIdeal(sqrt: real -> real, pts: seq<Vec3>, o: Vec3, h: Vec3, face: seq<Side>, chosen: seq<int>, i: nat)
    requires IsSqrt(sqrt) && IdealSet(sqrt, pts, o, h, face) && Choice(sqrt, pts, chosen) && i < 6
    ensures pts[chosen[i]] == IdealPose(o, h, SIDES[i])
  {
    hide Clears, IdealPose, BestFor;
    var p := chosen[i];
    StandsClears(sqrt, pts, SIDES[i], p);
    NoTwoSides(sqrt, pts[p], SIDES[i], face[p]);
  }

  lemma IdealFrame(sqrt: real -> real, pts: seq<Vec3>, o: Vec3, h: Vec3, face: seq<Side>, chosen: seq<int>)
    requires IsSqrt(sqrt) && IdealSet(sqrt, pts, o, h, face) && Choice(sqrt, pts, chosen)
    ensures Midpoint(pts, chosen) == o && Frame(pts, chosen) == Diag(h)
  {
    hide Clears, BestFor, IsSqrt, IdealPose, IdealSet;
    IdealFaces(o, h);
    ChosenIdeal(sqrt, pts, o, h, face, chosen, 0);
    ChosenIdeal(sqrt, pts, o, h, face, chosen, 1);
    ChosenIdeal(sqrt, pts, o, h, face, chosen, 2);
    ChosenIdeal(sqrt, pts, o, h, face, chosen, 3);
    ChosenIdeal(sqrt, pts, o, h, face, chosen, 4);
    ChosenIdeal(sqrt, pts, o, h, face, chosen, 5);
  }

  lemma IdealFaces(o: Vec3, h: Vec3)
    ensures IdealPose(o, h, SIDES[0]) == Vec3(o.x + h.x, o.y, o.z)
    ensures IdealPose(o, h, SIDES[1]) == Vec3(o.x - h.x, o.y, o.z)
    ensures IdealPose(o, h, SIDES[2]) == Vec3(o.x, o.y + h.y, o.z)
    ensures IdealPose(o, h, SIDES[3]) == Vec3(o.x, o.y - h.y, o.z)
    ensures IdealPose(o, h, SIDES[4]) == Vec3(o.x, o.y, o.z + h.z)
    ensures IdealPose(o, h, SIDES[5]) == Vec3(o.x, o.y, o.z - h.z)
  {}

  lemma DiagScales(h: Vec3, g: real)
    requires Det(Diag(h)) != 0.0
    ensures h.x != 0.0 && h.y != 0.0 && h.z != 0.0
    ensures AxisScales(Diag(h), g) == Diag(Vec3(g / h.x, g / h.y, g / h.z))
  {
    var d := h.x * h.y * h.z;
    assert Det(Diag(h)) == d;
    Ratio(h.y * h.z, g, h.x, d);
    Ratio(h.z * h.x, g, h.y, d);
    Ratio(h.x * h.y, g, h.z, d);
  }

  lemma Ratio(c: real, g: real, h: real, d: real)
    requires d != 0.0 && h != 0.0 && c * h == d
    ensures c * (g / d) == g / h
  {
    var k, q := g / d, g / h;
    assert k * d == g && q * h == g;
    assert (c * k - q) * h == 0.0;
  }

  /** With ideal poses, a fit recovers the bias exactly and maps every pose to
      plus or minus g along its own axis. */
  lemma IdealRecovered(sqrt: real -> real, pts: seq<Vec3>, o: Vec3, h: Vec3, face: seq<Side>, chosen: seq<int>,
                       g: real, p: nat)
    requires IsSqrt(sqrt) && IdealSet(sqrt, pts, o, h, face) && Choice(sqrt, pts, chosen) && p < |pts|
    requires Abs(Det(Frame(pts, chosen))) >= DET_MIN
    ensures Midpoint(pts, chosen) == o
    ensures var s := face[p];
      Apply(AxisScales(Frame(pts, chosen), g), Sub(pts[p], Midpoint(pts, chosen))) ==
      Scale(if s.sign == 0 then g else -g, Axis(s.axis))
  {
    hide Clears, BestFor, AxisScales, Det, IsSqrt;
    IdealFrame(sqrt, pts, o, h, face, chosen);
    DiagScales(h, g);
    MapsToAxis(h, g, o, face[p]);
  }

  lemma MapsToAxis(h: Vec3, g: real, o: Vec3, s: Side)
    requires s.Valid() && h.x != 0.0 && h.y != 0.0 && h.z != 0.0
    ensures Apply(Diag(Vec3(g / h.x, g / h.y, g / h.z)), Sub(IdealPose(o, h, s), o)) ==
            Scale(if s.sign == 0 then g else -g, Axis(s.axis))
  {
    var d := Sub(IdealPose(o, h, s), o);
    var e := Axis(s.axis);
    var k := if s.sign == 0 then h.At(s.axis) else -h.At(s.axis);
    assert d == Scale(k, e);
    assert g / h.x * h.x == g && g / h.y * h.y == g && g / h.z * h.z == g;
    assert g / h.x * -h.x == -g && g / h.y * -h.y == -g && g / h.z * -h.z == -g;
  }
}
