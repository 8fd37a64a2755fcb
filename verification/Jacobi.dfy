/** Cyclic Jacobi eigen-decomposition of a symmetric 3x3 matrix, in place. */
module Jacobi {
  import opened Reals
  import opened Matrix3

  /** The matrix held in a 3x3 buffer. */
  ghost function ToMat(m: array2<real>): Mat3
    reads m
    requires m.Length0 == 3 && m.Length1 == 3
  {
    Mat3(Vec3(m[0, 0], m[0, 1], m[0, 2]), Vec3(m[1, 0], m[1, 1], m[1, 2]), Vec3(m[2, 0], m[2, 1], m[2, 2]))
  }

  /** The three rotation planes of a sweep. */
  predicate Plane(p: nat, q: nat) {
    p < q < 3
  }

  /** The plane rotation: c on the diagonal, s at (p,q) and -s at (q,p). */
  function Rot(p: nat, q: nat, c: real, s: real): Mat3
    requires Plane(p, q)
  {
    if q == 1 then Mat3(Vec3(c, s, 0.0), Vec3(-s, c, 0.0), Vec3(0.0, 0.0, 1.0))
    else if p == 0 then Mat3(Vec3(c, 0.0, s), Vec3(0.0, 1.0, 0.0), Vec3(-s, 0.0, c))
    else Mat3(Vec3(1.0, 0.0, 0.0), Vec3(0.0, c, s), Vec3(0.0, -s, c))
  }

  /** The sum of the squared off-diagonal entries. */
  function Off(m: Mat3): real {
    m.r0.y * m.r0.y + m.r0.z * m.r0.z + m.r1.x * m.r1.x +
    m.r1.z * m.r1.z + m.r2.x * m.r2.x + m.r2.y * m.r2.y
  }

  function Diagonal(m: Mat3): Vec3 {
    Vec3(m.r0.x, m.r1.y, m.r2.z)
  }

  /** `v` is orthogonal and conjugates the symmetric `d` back to `m`. */
  ghost predicate Decomposes(v: Mat3, d: Mat3, m: Mat3) {
    Orthogonal(v) && Symmetric(d) && Mul(Mul(v, d), Transpose(v)) == m
  }

  /** One similarity step: J^T a J. */
  function Conjugated(j: Mat3, a: Mat3): Mat3 {
    Mul(Transpose(j), Mul(a, j))
  }

  // ----- the angle

  /** The tangent chosen is the smaller root of t^2 + 2 phi t = 1. */
  lemma TangentRoot(phi: real, r: real, t: real)
    requires r >= 0.0 && r * r == phi * phi + 1.0
    requires t == (if phi >= 0.0 then 1.0 else -1.0) / (Abs(phi) + r)
    ensures t * t + 2.0 * phi * t == 1.0 && t * t <= 1.0
  {
    var d := Abs(phi) + r;
    assert r > 0.0;
    var sg := if phi >= 0.0 then 1.0 else -1.0;
    assert t * d == sg;
    assert d * d == 2.0 * Abs(phi) * d + 1.0;
    assert phi == sg * Abs(phi);
    assert d * d * (t * t + 2.0 * phi * t) == (t * d) * (t * d) + 2.0 * phi * d * (t * d);
    assert d * d * (t * t + 2.0 * phi * t) == 1.0 + 2.0 * Abs(phi) * d;
    assert d * d * (t * t + 2.0 * phi * t - 1.0) == 0.0;
    assert d * d > 0.0;
    assert d * d >= 1.0;
    TangentSmall(t, d);
  }

  lemma TangentSmall(t: real, d: real)
    requires (t * d) * (t * d) == 1.0 && d * d >= 1.0
    ensures t * t <= 1.0
  {
    assert t * t >= 0.0;
    Times(1.0, d * d, t * t);
    assert (t * d) * (t * d) == t * t * (d * d);
  }

  method Angle(app: real, aqq: real, apq: real, sqrt: real -> real) returns (c: real, s: real)
    requires IsSqrt(sqrt) && apq != 0.0
    ensures Annihilates(c, s, app, aqq, apq)
  {
    var phi := 0.5 * (aqq - app) / apq;
    assert phi * phi >= 0.0;
    var r := sqrt(phi * phi + 1.0);
    assert r > 0.0;
    var tt := (if phi >= 0.0 then 1.0 else -1.0) / (Abs(phi) + r);
    TangentRoot(phi, r, tt);
    assert tt * tt >= 0.0;
    var h := sqrt(tt * tt + 1.0);
    assert h > 0.0;
    c := 1.0 / h;
    s := tt * c;
    assert c * h == 1.0;
    UnitAngle(h, tt, c, s);
    ZeroedEntry(app, aqq, apq, phi, tt, c, s);
  }

  lemma UnitAngle(h: real, t: real, c: real, s: real)
    requires h > 0.0 && h * h == t * t + 1.0 && c * h == 1.0 && s == t * c && t * t <= 1.0
    ensures Acute(c, s)
  {
    assert c * c + s * s == c * c * (1.0 + t * t);
    assert c * c * (h * h) == (c * h) * (c * h);
    SmallerSine(t, c, s);
  }

  lemma SmallerSine(t: real, c: real, s: real)
    requires s == t * c && t * t <= 1.0
    ensures s * s <= c * c
  {
    var k := c * c;
    assert k >= 0.0;
    Times(t * t, 1.0, k);
    assert s * s == t * t * k;
  }

  /** A rotation by at most an eighth of a turn. */
  ghost predicate Acute(c: real, s: real) {
    c * c + s * s == 1.0 && s * s <= 0.5
  }

  lemma ZeroedEntry(app: real, aqq: real, apq: real, phi: real, t: real, c: real, s: real)
    requires apq != 0.0 && phi == 0.5 * (aqq - app) / apq
    requires t * t + 2.0 * phi * t == 1.0 && s == t * c
    ensures (c * c - s * s) * apq + c * s * (app - aqq) == 0.0
  {
    assert phi * apq == 0.5 * (aqq - app);
    assert app - aqq == -2.0 * (phi * apq);
    assert (c * c - s * s) * apq + c * s * (app - aqq)
        == c * c * ((1.0 - t * t) * apq - 2.0 * t * (phi * apq));
    assert (1.0 - t * t) * apq - 2.0 * t * (phi * apq) == apq * (1.0 - t * t - 2.0 * phi * t);
  }

  // ----- one rotation

  lemma UnitProducts(c: real, s: real)
    requires c * c + s * s == 1.0
    ensures c * c + -s * -s == 1.0 && c * s + -s * c == 0.0 && s * c + c * -s == 0.0 && -s * -s == s * s
  {}

  /** A rotation and its opposite undo each other. */
  lemma RotUndone(p: nat, q: nat, c: real, s: real)
    requires Plane(p, q) && c * c + s * s == 1.0
    ensures Mul(Rot(p, q, c, -s), Rot(p, q, c, s)) == ID
  {
    var a, b := Rot(p, q, c, -s), Rot(p, q, c, s);
    UnitProducts(c, s);
    if q == 1 {
      assert RowTimes(a.r0, b) == ID.r0;
      assert RowTimes(a.r1, b) == ID.r1;
    } else if p == 0 {
      assert RowTimes(a.r0, b) == ID.r0;
      assert RowTimes(a.r2, b) == ID.r2;
    } else {
      assert RowTimes(a.r1, b) == ID.r1;
      assert RowTimes(a.r2, b) == ID.r2;
    }
  }

  lemma RotTransposed(p: nat, q: nat, c: real, s: real)
    requires Plane(p, q)
    ensures Transpose(Rot(p, q, c, s)) == Rot(p, q, c, -s)
  {}

  lemma RotOrthogonal(p: nat, q: nat, c: real, s: real)
    requires Plane(p, q) && c * c + s * s == 1.0
    ensures Orthogonal(Rot(p, q, c, s))
  {
    UnitProducts(c, s);
    hide Mul, Rot;
    RotTransposed(p, q, c, s);
    RotUndone(p, q, c, s);
    RotUndone(p, q, c, -s);
    assert -(-s) == s;
  }

  lemma ConjugateSymmetric(j: Mat3, a: Mat3)
    requires Symmetric(a)
    ensures Symmetric(Conjugated(j, a))
  {
    hide Mul, Transpose;
    TransposeMul(Transpose(j), Mul(a, j));
    TransposeMul(a, j);
    TransposeTwice(j);
    MulAssoc(Transpose(j), a, j);
  }

  /** Accumulating an orthogonal factor keeps the decomposition of `m`. */
  lemma RotationKeepsDecomposition(v: Mat3, d: Mat3, m: Mat3, j: Mat3)
    requires Decomposes(v, d, m) && Orthogonal(j)
    ensures Decomposes(Mul(v, j), Conjugated(j, d), m)
  {
    hide Mul, Transpose;
    var jt, vt := Transpose(j), Transpose(v);
    TransposeMul(v, j);
    assert Transpose(Mul(v, j)) == Mul(jt, vt);
    calc {
      Mul(Mul(jt, vt), Mul(v, j));
    == { MulAssoc(jt, vt, Mul(v, j)); MulAssoc(vt, v, j); MulId(j); }
      ID;
    }
    calc {
      Mul(Mul(v, j), Mul(jt, vt));
    == { MulAssoc(v, j, Mul(jt, vt)); MulAssoc(j, jt, vt); MulId(vt); }
      ID;
    }
    ConjugateSymmetric(j, d);
    var dj := Mul(d, j);
    calc {
      Mul(Mul(v, j), Mul(jt, dj));
    == { MulAssoc(v, j, Mul(jt, dj)); MulAssoc(j, jt, dj); MulId(dj); }
      Mul(v, dj);
    == { MulAssoc(v, d, j); }
      Mul(Mul(v, d), j);
    }
    calc {
      Mul(Mul(Mul(v, d), j), Mul(jt, vt));
    == { MulAssoc(Mul(v, d), j, Mul(jt, vt)); MulAssoc(j, jt, vt); MulId(vt); }
      m;
    }
  }

  /** Entry (p,q) of J^T a J for symmetric `a`. */
  lemma ConjugatedPivot(a: Mat3, p: nat, q: nat, c: real, s: real)
    requires Symmetric(a) && Plane(p, q)
    ensures Conjugated(Rot(p, q, c, s), a).At(p, q) ==
            (c * c - s * s) * a.At(p, q) + c * s * (a.At(p, p) - a.At(q, q))
  {
    if q == 1 {
    } else if p == 0 {
    } else {
    }
  }

  /** The other off-diagonal entries; `k` is the axis the rotation leaves alone. */
  lemma ConjugatedOthers(a: Mat3, p: nat, q: nat, k: nat, c: real, s: real)
    requires Symmetric(a) && Plane(p, q) && k == 3 - p - q
    ensures Conjugated(Rot(p, q, c, s), a).At(p, k) == c * a.At(p, k) - s * a.At(q, k)
    ensures Conjugated(Rot(p, q, c, s), a).At(q, k) == s * a.At(p, k) + c * a.At(q, k)
  {
    if q == 1 {
    } else if p == 0 {
    } else {
    }
  }

  /** The rotation zeroes entry (p,q) and takes exactly twice its square out of
      the off-diagonal sum. */
  lemma RotationZeroes(a: Mat3, p: nat, q: nat, c: real, s: real)
    requires Symmetric(a) && Plane(p, q) && c * c + s * s == 1.0
    requires (c * c - s * s) * a.At(p, q) + c * s * (a.At(p, p) - a.At(q, q)) == 0.0
    ensures Conjugated(Rot(p, q, c, s), a).At(p, q) == 0.0
    ensures Off(Conjugated(Rot(p, q, c, s), a)) == Off(a) - 2.0 * a.At(p, q) * a.At(p, q)
  {
    hide Conjugated, Rot, Symmetric, Off;
    var b, k := Conjugated(Rot(p, q, c, s), a), 3 - p - q;
    ConjugateSymmetric(Rot(p, q, c, s), a);
    ConjugatedPivot(a, p, q, c, s);
    ConjugatedOthers(a, p, q, k, c, s);
    OffDrop(a, b, p, q, k, c, s);
  }

  lemma RotatedPair(x: real, y: real, c: real, s: real)
    requires c * c + s * s == 1.0
    ensures (c * x - s * y) * (c * x - s * y) + (s * x + c * y) * (s * x + c * y) == x * x + y * y
  {
    assert (c * x - s * y) * (c * x - s * y) + (s * x + c * y) * (s * x + c * y)
        == (c * c + s * s) * (x * x + y * y);
  }

  lemma OffByPlane(a: Mat3, p: nat, q: nat, k: nat)
    requires Symmetric(a) && Plane(p, q) && k == 3 - p - q
    ensures Off(a) == 2.0 * (a.At(p, q) * a.At(p, q) + a.At(p, k) * a.At(p, k) + a.At(q, k) * a.At(q, k))
  {}

  lemma OffDrop(a: Mat3, b: Mat3, p: nat, q: nat, k: nat, c: real, s: real)
    requires Symmetric(a) && Symmetric(b) && Plane(p, q) && k == 3 - p - q
    requires c * c + s * s == 1.0 && b.At(p, q) == 0.0
    requires b.At(p, k) == c * a.At(p, k) - s * a.At(q, k)
    requires b.At(q, k) == s * a.At(p, k) + c * a.At(q, k)
    ensures Off(b) == Off(a) - 2.0 * a.At(p, q) * a.At(p, q)
  {
    RotatedPair(a.At(p, k), a.At(q, k), c, s);
    OffByPlane(a, p, q, k);
    OffByPlane(b, p, q, k);
  }

  // ----- the in-place form

  /** What a rotation does to a pair of entries, as two functions of the pair. */
  type Mix = (real, real) -> real

  function Lo(c: real, s: real): Mix {
    (x: real, y: real) => c * x - s * y
  }

  function Hi(c: real, s: real): Mix {
    (x: real, y: real) => s * x + c * y
  }

  /** A row with its entries p and q replaced by their mixtures. */
  function MixRow(u: Vec3, p: nat, q: nat, lo: Mix, hi: Mix): Vec3
    requires Plane(p, q)
  {
    if q == 1 then Vec3(lo(u.x, u.y), hi(u.x, u.y), u.z)
    else if p == 0 then Vec3(lo(u.x, u.z), u.y, hi(u.x, u.z))
    else Vec3(u.x, lo(u.y, u.z), hi(u.y, u.z))
  }

  function MixColumns(m: Mat3, p: nat, q: nat, lo: Mix, hi: Mix): Mat3
    requires Plane(p, q)
  {
    Mat3(MixRow(m.r0, p, q, lo, hi), MixRow(m.r1, p, q, lo, hi), MixRow(m.r2, p, q, lo, hi))
  }

  function MixRows(m: Mat3, p: nat, q: nat, lo: Mix, hi: Mix): Mat3
    requires Plane(p, q)
  {
    Transpose(MixColumns(Transpose(m), p, q, lo, hi))
  }

  lemma PlaneDots(u: Vec3, c: real, s: real)
    ensures Dot(u, Vec3(c, -s, 0.0)) == Lo(c, s)(u.x, u.y) && Dot(u, Vec3(s, c, 0.0)) == Hi(c, s)(u.x, u.y)
    ensures Dot(u, Vec3(c, 0.0, -s)) == Lo(c, s)(u.x, u.z) && Dot(u, Vec3(s, 0.0, c)) == Hi(c, s)(u.x, u.z)
    ensures Dot(u, Vec3(0.0, c, -s)) == Lo(c, s)(u.y, u.z) && Dot(u, Vec3(0.0, s, c)) == Hi(c, s)(u.y, u.z)
    ensures Dot(u, ID.r0) == u.x && Dot(u, ID.r1) == u.y && Dot(u, ID.r2) == u.z
  {}

  lemma RotColumns(p: nat, q: nat, c: real, s: real)
    requires Plane(p, q)
    ensures var m := Rot(p, q, c, s);
      if q == 1 then m.Col(0) == Vec3(c, -s, 0.0) && m.Col(1) == Vec3(s, c, 0.0) && m.Col(2) == ID.r2
      else if p == 0 then m.Col(0) == Vec3(c, 0.0, -s) && m.Col(1) == ID.r1 && m.Col(2) == Vec3(s, 0.0, c)
      else m.Col(0) == ID.r0 && m.Col(1) == Vec3(0.0, c, -s) && m.Col(2) == Vec3(0.0, s, c)
  {}

  lemma MixRowIsProduct(u: Vec3, p: nat, q: nat, c: real, s: real)
    requires Plane(p, q)
    ensures MixRow(u, p, q, Lo(c, s), Hi(c, s)) == RowTimes(u, Rot(p, q, c, s))
  {
    PlaneDots(u, c, s);
    RotColumns(p, q, c, s);
    hide Dot, Rot, Lo, Hi, Mat3.Col;
  }

  lemma MixColumnsIsProduct(m: Mat3, p: nat, q: nat, c: real, s: real)
    requires Plane(p, q)
    ensures MixColumns(m, p, q, Lo(c, s), Hi(c, s)) == Mul(m, Rot(p, q, c, s))
  {
    MixRowIsProduct(m.r0, p, q, c, s);
    MixRowIsProduct(m.r1, p, q, c, s);
    MixRowIsProduct(m.r2, p, q, c, s);
  }

  lemma MixRowsIsProduct(m: Mat3, p: nat, q: nat, c: real, s: real)
    requires Plane(p, q)
    ensures MixRows(m, p, q, Lo(c, s), Hi(c, s)) == Mul(Transpose(Rot(p, q, c, s)), m)
  {
    MixColumnsIsProduct(Transpose(m), p, q, c, s);
    TransposeMul(Transpose(m), Rot(p, q, c, s));
  }

  method RotateColumns(m: array2<real>, p: nat, q: nat, lo: Mix, hi: Mix)
    requires m.Length0 == 3 && m.Length1 == 3 && Plane(p, q)
    modifies m
    ensures ToMat(m) == MixColumns(old(ToMat(m)), p, q, lo, hi)
  {
    for i := 0 to 3
      invariant forall k :: 0 <= k < i ==> m[k, p] == lo(old(m[k, p]), old(m[k, q]))
      invariant forall k :: 0 <= k < i ==> m[k, q] == hi(old(m[k, p]), old(m[k, q]))
      invariant forall k, j :: 0 <= k < 3 && 0 <= j < 3 && (k >= i || (j != p && j != q)) ==> m[k, j] == old(m[k, j])
    {
      var mip, miq := m[i, p], m[i, q];
      m[i, p] := lo(mip, miq);
      m[i, q] := hi(mip, miq);
    }
  }

  method RotateRows(m: array2<real>, p: nat, q: nat, lo: Mix, hi: Mix)
    requires m.Length0 == 3 && m.Length1 == 3 && Plane(p, q)
    modifies m
    ensures ToMat(m) == MixRows(old(ToMat(m)), p, q, lo, hi)
  {
    for i := 0 to 3
      invariant forall k :: 0 <= k < i ==> m[p, k] == lo(old(m[p, k]), old(m[q, k]))
      invariant forall k :: 0 <= k < i ==> m[q, k] == hi(old(m[p, k]), old(m[q, k]))
      invariant forall k, j :: 0 <= k < 3 && 0 <= j < 3 && (j >= i || (k != p && k != q)) ==> m[k, j] == old(m[k, j])
    {
      var mpi, mqi := m[p, i], m[q, i];
      m[p, i] := lo(mpi, mqi);
      m[q, i] := hi(mpi, mqi);
    }
  }

  /** The angle that rotates the entry `apq` away. */
  ghost predicate Annihilates(c: real, s: real, app: real, aqq: real, apq: real) {
    Acute(c, s) && (c * c - s * s) * apq + c * s * (app - aqq) == 0.0
  }

  /** Entries smaller than this are left alone. */
  const EPS := 1e-15

  /** Sweeping stops when the spread is below this. */
  const TOL := 1e-12

  /** How the entries beside the pivot come out; `k` is the axis left alone. */
  ghost predicate Mixes(a0: Mat3, a1: Mat3, p: nat, q: nat, c: real, s: real)
    requires Plane(p, q)
  {
    var k := 3 - p - q;
    Acute(c, s) && a1.At(p, k) == c * a0.At(p, k) - s * a0.At(q, k) && a1.At(q, k) == s * a0.At(p, k) + c * a0.At(q, k)
  }

  /** One turn in the plane, which may be none at all: the pivot entry ends up
      negligible and the others as some acute rotation mixes them. */
  ghost predicate Turned(a0: Mat3, a1: Mat3, p: nat, q: nat)
    requires Plane(p, q)
  {
    Symmetric(a1) && Abs(a1.At(p, q)) < EPS && exists c, s :: Mixes(a0, a1, p, q, c, s)
  }

  /** What rotating away an entry takes out of the off-diagonal sum. */
  function Removed(apq: real): real {
    if Abs(apq) < EPS then 0.0 else 2.0 * apq * apq
  }

  /** One step of the inner loop, from (v0, a0) to (v1, a1). */
  ghost predicate Step(v0: Mat3, a0: Mat3, v1: Mat3, a1: Mat3, m: Mat3, p: nat, q: nat)
    requires Plane(p, q)
  {
    (Decomposes(v0, a0, m) ==> Decomposes(v1, a1, m)) &&
    (Symmetric(a0) ==> Turned(a0, a1, p, q) && Off(a1) == Off(a0) - Removed(a0.At(p, q)))
  }

  /** The three in-place passes of one rotation, put together. */
  lemma PassesRotate(v: Mat3, a: Mat3, m: Mat3, p: nat, q: nat, c: real, s: real)
    requires Plane(p, q) && Abs(a.At(p, q)) >= EPS
    requires Annihilates(c, s, a.At(p, p), a.At(q, q), a.At(p, q))
    ensures var lo, hi := Lo(c, s), Hi(c, s);
      Step(v, a, MixColumns(v, p, q, lo, hi), MixRows(MixColumns(a, p, q, lo, hi), p, q, lo, hi), m, p, q)
  {
    hide Mul, Transpose, Rot, MixColumns, MixRows, Off, Decomposes, Symmetric, Turned;
    MixColumnsIsProduct(a, p, q, c, s);
    MixRowsIsProduct(MixColumns(a, p, q, Lo(c, s), Hi(c, s)), p, q, c, s);
    MixColumnsIsProduct(v, p, q, c, s);
    var j := Rot(p, q, c, s);
    RotOrthogonal(p, q, c, s);
    if Decomposes(v, a, m) {
      RotationKeepsDecomposition(v, a, m, j);
    }
    if Symmetric(a) {
      RotationZeroes(a, p, q, c, s);
      RotationTurns(a, p, q, c, s);
    }
  }

  lemma RotationTurns(a: Mat3, p: nat, q: nat, c: real, s: real)
    requires Symmetric(a) && Plane(p, q) && Annihilates(c, s, a.At(p, p), a.At(q, q), a.At(p, q))
    ensures Turned(a, Conjugated(Rot(p, q, c, s), a), p, q)
  {
    hide Conjugated, Rot, Symmetric, Off;
    var b := Conjugated(Rot(p, q, c, s), a);
    ConjugateSymmetric(Rot(p, q, c, s), a);
    RotationZeroes(a, p, q, c, s);
    ConjugatedOthers(a, p, q, 3 - p - q, c, s);
    assert Mixes(a, b, p, q, c, s);
  }

  /** Leaving a negligible entry alone is a turn by nothing. */
  lemma SkippingTurns(a: Mat3, p: nat, q: nat)
    requires Symmetric(a) && Plane(p, q) && Abs(a.At(p, q)) < EPS
    ensures Turned(a, a, p, q)
  {
    assert Mixes(a, a, p, q, 1.0, 0.0);
  }

  /** One pass of the inner loop: skip a negligible entry, otherwise rotate. */
  method Rotate(a: array2<real>, v: array2<real>, p: nat, q: nat, sqrt: real -> real, ghost m: Mat3)
    requires a.Length0 == a.Length1 == v.Length0 == v.Length1 == 3 && a != v
    requires Plane(p, q) && IsSqrt(sqrt)
    modifies a, v
    ensures Step(old(ToMat(v)), old(ToMat(a)), ToMat(v), ToMat(a), m, p, q)
  {
    hide Annihilates, MixColumns, MixRows, Decomposes, Symmetric, Off, Turned;
    ghost var a0, v0 := ToMat(a), ToMat(v);
    var app, aqq, apq := a[p, p], a[q, q], a[p, q];
    assert apq == a0.At(p, q) && app == a0.At(p, p) && aqq == a0.At(q, q);
    if Abs(apq) < EPS {
      if Symmetric(a0) {
        SkippingTurns(a0, p, q);
      }
      return;
    }
    var c, s := Angle(app, aqq, apq, sqrt);
    var lo, hi := Lo(c, s), Hi(c, s);
    RotateColumns(a, p, q, lo, hi);
    RotateRows(a, p, q, lo, hi);
    RotateColumns(v, p, q, lo, hi);
    PassesRotate(v0, a0, m, p, q, c, s);
  }

  /** Distance from diagonal, as the sweep test measures it. */
  function Spread(m: Mat3): real {
    Abs(m.r0.y) + Abs(m.r0.z) + Abs(m.r1.z)
  }

  /** What any number of steps keeps. */
  ghost predicate Progress(v0: Mat3, a0: Mat3, v1: Mat3, a1: Mat3, m: Mat3) {
    Decomposes(v0, a0, m) ==> Decomposes(v1, a1, m) && Off(a1) <= Off(a0)
  }

  lemma ProgressHere(v: Mat3, a: Mat3, m: Mat3)
    ensures Progress(v, a, v, a, m)
  {
    hide Decomposes, Off;
  }

  lemma ProgressOn(v0: Mat3, a0: Mat3, v1: Mat3, a1: Mat3, v2: Mat3, a2: Mat3, m: Mat3)
    requires Progress(v0, a0, v1, a1, m) && Progress(v1, a1, v2, a2, m)
    ensures Progress(v0, a0, v2, a2, m)
  {
    hide Decomposes, Off;
  }

  lemma StepProgress(v0: Mat3, a0: Mat3, v1: Mat3, a1: Mat3, v2: Mat3, a2: Mat3, m: Mat3, p: nat, q: nat)
    requires Plane(p, q) && Progress(v0, a0, v1, a1, m) && Step(v1, a1, v2, a2, m, p, q)
    ensures Progress(v0, a0, v2, a2, m)
  {
    hide Mul, Transpose, Off, Orthogonal, Removed;
    if Decomposes(v0, a0, m) {
      assert Decomposes(v1, a1, m);
      assert Off(a2) == Off(a1) - Removed(a1.At(p, q));
      NonNegativeRemoved(a1.At(p, q));
    }
  }

  lemma NonNegativeRemoved(x: real)
    ensures Removed(x) >= 0.0
  {
    assert x * x >= 0.0;
  }

  // ----- how fast the sweeps converge

  lemma Young(u: real, v: real, w: real)
    requires w == u + v
    ensures w * w <= 65.0 / 64.0 * (u * u) + 65.0 * (v * v)
  {
    var d := u / 8.0 - 8.0 * v;
    assert d * d >= 0.0;
    assert d * d == u * u / 64.0 - 2.0 * (u * v) + 64.0 * (v * v);
    assert w * w == u * u + 2.0 * (u * v) + v * v;
  }

  lemma Portion(k: real, x: real, y: real, bound: real)
    requires k * k <= bound && y == k * x
    ensures y * y <= bound * (x * x)
  {
    assert x * x >= 0.0;
    Times(k * k, bound, x * x);
    assert y * y == k * k * (x * x);
  }

  /** An acute rotation takes little more than half the square of `b` to where a
      negligible `a` was. */
  lemma Halved(c: real, s: real, a: real, b: real, e: real, w: real)
    requires Acute(c, s) && a * a <= e && (w == c * a - s * b || w == s * b + c * a)
    ensures w * w <= 65.0 / 128.0 * (b * b) + 65.0 * e
  {
    assert s * s >= 0.0 && c * c >= 0.0;
    var u, v := if w == s * b + c * a then s * b else -s * b, c * a;
    assert u == s * b || u == -(s * b);
    assert -s * -s == s * s;
    Portion(if w == s * b + c * a then s else -s, b, u, 0.5);
    Portion(c, a, v, 1.0);
    Young(u, v, w);
  }

  lemma SamePair(x: real, y: real, c: real, s: real, p: real, q: real)
    requires Acute(c, s) && p == c * x - s * y && q == s * x + c * y
    ensures p * p + q * q == x * x + y * y
  {
    RotatedPair(x, y, c, s);
  }

  /** The three entries above the diagonal. */
  function Upper(m: Mat3): real {
    m.r0.y * m.r0.y + m.r0.z * m.r0.z + m.r1.z * m.r1.z
  }

  lemma OffIsUpper(m: Mat3)
    requires Symmetric(m)
    ensures Off(m) == 2.0 * Upper(m)
  {}

  lemma SquareSmall(x: real)
    requires Abs(x) < EPS
    ensures x * x <= EPS * EPS
  {
    var y := Abs(x);
    assert x * x == y * y;
    Times(y, EPS, y);
    Times(y, EPS, EPS);
  }

  /** The entries (x, y, z) above the diagonal through the three turns. */
  lemma TurnsContract(a0: Mat3, a1: Mat3, a2: Mat3, a3: Mat3)
    requires Symmetric(a0) && Turned(a0, a1, 0, 1) && Turned(a1, a2, 0, 2) && Turned(a2, a3, 1, 2)
    ensures Upper(a3) <= 65.0 / 128.0 * (a1.r1.z * a1.r1.z) + 67.0 * (EPS * EPS)
    ensures a1.r1.z * a1.r1.z <= Upper(a0)
    ensures Abs(a0.r1.z) < EPS ==> a1.r1.z * a1.r1.z <= 65.0 / 128.0 * Upper(a0) + 65.0 * (EPS * EPS)
  {
    FirstTurn(a0, a1);
    var z1, x2 := a1.r1.z, a2.r0.y;
    SecondTurn(a1, a2);
    ThirdTurn(a2, a3);
  }

  lemma FirstTurn(a: Mat3, b: Mat3)
    requires Symmetric(a) && Turned(a, b, 0, 1)
    ensures b.r1.z * b.r1.z <= Upper(a)
    ensures Abs(a.r1.z) < EPS ==> b.r1.z * b.r1.z <= 65.0 / 128.0 * Upper(a) + 65.0 * (EPS * EPS)
  {
    var c, s :| Mixes(a, b, 0, 1, c, s);
    FirstPair(a.r0.y, a.r0.z, a.r1.z, c, s, b.r0.z, b.r1.z);
  }

  lemma FirstPair(x: real, y: real, z: real, c: real, s: real, y1: real, z1: real)
    requires Acute(c, s) && y1 == c * y - s * z && z1 == s * y + c * z
    ensures z1 * z1 <= x * x + y * y + z * z
    ensures Abs(z) < EPS ==> z1 * z1 <= 65.0 / 128.0 * (x * x + y * y + z * z) + 65.0 * (EPS * EPS)
  {
    hide Acute;
    SamePair(y, z, c, s, y1, z1);
    NonNegativeSquare(x);
    NonNegativeSquare(y1);
    NonNegativeSquare(z);
    if Abs(z) < EPS {
      SquareSmall(z);
      Halved(c, s, z, y, EPS * EPS, z1);
    }
  }

  lemma SecondTurn(a: Mat3, b: Mat3)
    requires Symmetric(a) && Turned(a, b, 0, 2) && Abs(a.r0.y) < EPS
    ensures b.r0.y * b.r0.y <= 65.0 / 128.0 * (a.r1.z * a.r1.z) + 65.0 * (EPS * EPS)
  {
    var c, s :| Mixes(a, b, 0, 2, c, s);
    SquareSmall(a.r0.y);
    Halved(c, s, a.r0.y, a.r1.z, EPS * EPS, b.r0.y);
  }

  lemma ThirdTurn(a: Mat3, b: Mat3)
    requires Symmetric(a) && Turned(a, b, 1, 2) && Abs(a.r0.z) < EPS
    ensures Upper(b) <= a.r0.y * a.r0.y + 2.0 * (EPS * EPS)
  {
    var c, s :| Mixes(a, b, 1, 2, c, s);
    assert Abs(b.r1.z) < EPS;
    ThirdPair(a.r0.y, a.r0.z, c, s, b.r0.y, b.r0.z, b.r1.z);
  }

  lemma ThirdPair(x: real, y: real, c: real, s: real, x1: real, y1: real, z1: real)
    requires Acute(c, s) && x1 == c * x - s * y && y1 == s * x + c * y && Abs(y) < EPS && Abs(z1) < EPS
    ensures x1 * x1 + y1 * y1 + z1 * z1 <= x * x + 2.0 * (EPS * EPS)
  {
    hide Acute;
    SamePair(x, y, c, s, x1, y1);
    SquareSmall(y);
    SquareSmall(z1);
  }

  /** What one sweep does. */
  ghost predicate Swept(a0: Mat3, a3: Mat3) {
    exists a1, a2 :: Turned(a0, a1, 0, 1) && Turned(a1, a2, 0, 2) && Turned(a2, a3, 1, 2)
  }

  /** A matrix that has not settled has something to lose. */
  lemma SpreadFloor(m: Mat3)
    ensures Spread(m) * Spread(m) <= 3.0 * Upper(m)
  {
    var x, y, z := m.r0.y, m.r0.z, m.r1.z;
    AbsSquare(x);
    AbsSquare(y);
    AbsSquare(z);
    hide Abs;
    ThreeSquares(Abs(x), Abs(y), Abs(z));
  }

  lemma AbsSquare(x: real)
    ensures Abs(x) * Abs(x) == x * x
  {}

  lemma ThreeSquares(x: real, y: real, z: real)
    ensures (x + y + z) * (x + y + z) <= 3.0 * (x * x + y * y + z * z)
  {
    NonNegativeSquare(x - y);
    NonNegativeSquare(y - z);
    NonNegativeSquare(x - z);
    assert (x + y + z) * (x + y + z) + (x - y) * (x - y) + (y - z) * (y - z) + (x - z) * (x - z)
        == 3.0 * (x * x + y * y + z * z);
  }

  lemma SquareFloor(x: real, b: real)
    requires x >= b >= 0.0
    ensures x * x >= b * b
  {
    Times(b, x, b);
    Times(b, x, x);
  }

  /** While the sweep test fails, a sweep leaves at most 0.51 of the off-diagonal
      sum, and at most 0.26 if the entry rotated last was negligible before it. */
  lemma SweepContracts(a0: Mat3, a3: Mat3)
    requires Symmetric(a0) && Swept(a0, a3) && Spread(a0) >= TOL
    ensures Symmetric(a3) && Abs(a3.r1.z) < EPS
    ensures Off(a3) <= 0.51 * Off(a0)
    ensures Abs(a0.r1.z) < EPS ==> Off(a3) <= 0.26 * Off(a0)
  {
    var a1, a2 :| Turned(a0, a1, 0, 1) && Turned(a1, a2, 0, 2) && Turned(a2, a3, 1, 2);
    TurnsContract(a0, a1, a2, a3);
    assert a3.r1.z == a3.At(1, 2);
    OffIsUpper(a0);
    OffIsUpper(a3);
    SpreadFloor(a0);
    SquareFloor(Spread(a0), TOL);
    hide Turned, Symmetric, Upper, Off, Spread, Abs;
  }

  /** A bound on what is left of the off-diagonal sum after `k` sweeps. */
  function Contraction(k: nat): (r: real)
    ensures r >= 0.0
  {
    if k == 0 then 1.0 else if k == 1 then 0.51 else 0.26 * Contraction(k - 1)
  }

  ghost predicate Contracted(m: Mat3, a: Mat3, k: nat) {
    Symmetric(a) && Off(a) <= Contraction(k) * Off(m) && (k > 0 ==> Abs(a.r1.z) < EPS)
  }

  lemma ContractedNext(m: Mat3, a: Mat3, b: Mat3, k: nat)
    requires Contracted(m, a, k) && Swept(a, b) && Spread(a) >= TOL
    ensures Contracted(m, b, k + 1)
  {
    hide Symmetric, Off, Swept, Spread, Abs;
    SweepContracts(a, b);
    var o, r := Off(m), Contraction(k);
    if k > 0 {
      assert 0.26 * (r * o) == 0.26 * r * o;
    }
  }

  lemma SevenSweeps(k: nat)
    requires k >= 1
    ensures Contraction(k + 7) <= 8.1e-5 * Contraction(k)
  {
    var r := Contraction(k);
    assert Contraction(k + 1) == 0.26 * r;
    assert Contraction(k + 2) == 0.0676 * r;
    assert Contraction(k + 4) == 0.0676 * Contraction(k + 2);
    assert Contraction(k + 6) == 0.0676 * Contraction(k + 4);
  }

  lemma FiftySweeps()
    ensures Contraction(50) <= 1.2e-29
  {
    SevenSweeps(1);
    SevenSweeps(8);
    SevenSweeps(15);
    SevenSweeps(22);
    SevenSweeps(29);
    SevenSweeps(36);
    SevenSweeps(43);
  }

  /** The bound for all the sweeps there can be. */
  function Residue(): real {
    Contraction(50)
  }

  lemma ResidueSmall()
    ensures Residue() <= 1.2e-29
  {
    FiftySweeps();
  }

  /** The sweeps end with the spread below the tolerance, or at least with that
      bound. */
  ghost predicate Converged(m: Mat3, d: Mat3) {
    Spread(d) < TOL || Off(d) <= Residue() * Off(m)
  }

  /** So an input of moderate size always ends below the tolerance. */
  lemma ModestSettles(m: Mat3, d: Mat3)
    requires Symmetric(d) && Converged(m, d) && Off(m) <= 50000.0
    ensures Spread(d) < TOL
  {
    hide Spread, Off, Upper, Residue, Symmetric;
    ResidueSmall();
    NonNegativeOff(m);
    OffIsUpper(d);
    SpreadFloor(d);
    TooSmall(Residue(), Off(m), Off(d), Spread(d));
  }

  lemma TooSmall(r: real, o: real, d: real, w: real)
    requires 0.0 <= o <= 50000.0 && r <= 1.2e-29 && w * w <= 1.5 * d && (w < TOL || d <= r * o)
    ensures w < TOL
  {
    Times(r, 1.2e-29, o);
    Times(o, 50000.0, 1.2e-29);
    assert TOL * TOL == 1e-24;
    if w >= TOL {
      SquareFloor(w, TOL);
      assert false;
    }
  }

  function SquaredSpread(m: Mat3): real {
    Spread(m) * Spread(m)
  }

  function SpreadLimit(m: Mat3): real {
    TOL * TOL + 1.8e-29 * Off(m)
  }

  /** And any input ends with a spread whose square is this small. */
  lemma SpreadBound(m: Mat3, d: Mat3)
    requires Symmetric(d) && Converged(m, d)
    ensures SquaredSpread(d) <= SpreadLimit(m)
  {
    hide Spread, Off, Upper, Residue, Symmetric;
    ResidueSmall();
    NonNegativeOff(m);
    OffIsUpper(d);
    SpreadFloor(d);
    NonNegativeSpread(d);
    SmallEnough(Residue(), Off(m), Off(d), Spread(d));
  }

  lemma NonNegativeSpread(m: Mat3)
    ensures Spread(m) >= 0.0
  {}

  lemma SmallEnough(r: real, o: real, d: real, w: real)
    requires 0.0 <= o && r <= 1.2e-29 && w * w <= 1.5 * d && w >= 0.0 && (w < TOL || d <= r * o)
    ensures w * w <= TOL * TOL + 1.8e-29 * o
  {
    Times(r, 1.2e-29, o);
    if w < TOL {
      SquareFloor(TOL, w);
    } else {
      assert TOL * TOL >= 0.0;
    }
  }

  lemma NonNegativeOff(m: Mat3)
    ensures Off(m) >= 0.0
  {
    NonNegativeSquare(m.r0.y);
    NonNegativeSquare(m.r0.z);
    NonNegativeSquare(m.r1.x);
    NonNegativeSquare(m.r1.z);
    NonNegativeSquare(m.r2.x);
    NonNegativeSquare(m.r2.y);
  }

  lemma NonNegativeSquare(x: real)
    ensures x * x >= 0.0
  {}

  // ----- the sweeps

  /** The rotation planes in sweep order. */
  const PLANES: seq<(nat, nat)> := [(0, 1), (0, 2), (1, 2)]

  ghost predicate TurnedBy(a: Mat3, b: Mat3, k: nat)
    requires k < 3
  {
    Symmetric(a) ==> Turned(a, b, PLANES[k].0, PLANES[k].1)
  }

  lemma TrailSweeps(trail: seq<Mat3>)
    requires |trail| == 4 && forall j :: 0 <= j < 3 ==> TurnedBy(trail[j], trail[j + 1], j)
    ensures Symmetric(trail[0]) ==> Swept(trail[0], trail[3])
  {
    hide Symmetric;
    assert TurnedBy(trail[0], trail[1], 0) && TurnedBy(trail[1], trail[2], 1) && TurnedBy(trail[2], trail[3], 2);
  }

  method Sweep(a: array2<real>, v: array2<real>, sqrt: real -> real, ghost m: Mat3)
    requires a.Length0 == a.Length1 == v.Length0 == v.Length1 == 3 && a != v
    requires IsSqrt(sqrt)
    modifies a, v
    ensures Progress(old(ToMat(v)), old(ToMat(a)), ToMat(v), ToMat(a), m)
    ensures Symmetric(old(ToMat(a))) ==> Swept(old(ToMat(a)), ToMat(a))
  {
    hide Progress, Step, TurnedBy, Swept, Symmetric;
    ghost var v0, a0 := ToMat(v), ToMat(a);
    ghost var trail := [a0];
    ProgressHere(v0, a0, m);
    for k := 0 to 3
      invariant Progress(v0, a0, ToMat(v), ToMat(a), m)
      invariant |trail| == k + 1 && trail[0] == a0 && trail[k] == ToMat(a)
      invariant forall j :: 0 <= j < k ==> TurnedBy(trail[j], trail[j + 1], j)
    {
      var p, q := PLANES[k].0, PLANES[k].1;
      ghost var v1, a1 := ToMat(v), ToMat(a);
      Rotate(a, v, p, q, sqrt, m);
      StepProgress(v0, a0, v1, a1, ToMat(v), ToMat(a), m, p, q);
      StepTurns(v1, a1, ToMat(v), ToMat(a), m, k);
      trail := trail + [ToMat(a)];
    }
    TrailSweeps(trail);
  }

  lemma StepTurns(v0: Mat3, a0: Mat3, v1: Mat3, a1: Mat3, m: Mat3, k: nat)
    requires k < 3 && Step(v0, a0, v1, a1, m, PLANES[k].0, PLANES[k].1)
    ensures TurnedBy(a0, a1, k)
  {
    hide Turned, Decomposes, Off, Symmetric;
  }

  /** `v` and `d` are a decomposition of `m`, with what the sweeps achieve. */
  ghost predicate Splits(m: Mat3, v: Mat3, d: Mat3) {
    Decomposes(v, d, m) && Off(d) <= Off(m) && Converged(m, d)
  }

  lemma IdentityDecomposes(m: Mat3)
    requires Symmetric(m)
    ensures Decomposes(ID, m, m)
  {
    assert Transpose(ID) == ID;
    hide Mul, Transpose;
    MulId(ID);
    MulId(m);
  }

  /** Steps from the identity decompose the input. */
  lemma FromIdentity(m: Mat3, v: Mat3, d: Mat3)
    requires Symmetric(m) && Progress(ID, m, v, d, m) && Converged(m, d)
    ensures Splits(m, v, d)
  {
    hide Decomposes, Symmetric, Off, Converged;
    IdentityDecomposes(m);
  }

  method CopyMatrix(from: array2<real>) returns (a: array2<real>)
    requires from.Length0 == from.Length1 == 3
    ensures fresh(a) && a.Length0 == a.Length1 == 3 && ToMat(a) == ToMat(from)
  {
    a := new real[3, 3];
    for i := 0 to 3
      modifies a
      invariant forall k, j :: 0 <= k < i && 0 <= j < 3 ==> a[k, j] == from[k, j]
    {
      a[i, 0], a[i, 1], a[i, 2] := from[i, 0], from[i, 1], from[i, 2];
    }
  }

  method SetIdentity(v: array2<real>)
    requires v.Length0 == v.Length1 == 3
    modifies v
    ensures ToMat(v) == ID
  {
    v[0, 0], v[0, 1], v[0, 2] := 1.0, 0.0, 0.0;
    v[1, 0], v[1, 1], v[1, 2] := 0.0, 1.0, 0.0;
    v[2, 0], v[2, 1], v[2, 2] := 0.0, 0.0, 1.0;
  }

  /** At most fifty sweeps, stopping early once the spread is negligible. */
  method Iterate(a: array2<real>, v: array2<real>, sqrt: real -> real, ghost m: Mat3)
    requires a.Length0 == a.Length1 == v.Length0 == v.Length1 == 3 && a != v
    requires IsSqrt(sqrt) && Symmetric(ToMat(a))
    modifies a, v
    ensures Progress(old(ToMat(v)), old(ToMat(a)), ToMat(v), ToMat(a), m)
    ensures Converged(old(ToMat(a)), ToMat(a))
  {
    hide Progress, Contracted, Converged, Swept, Symmetric;
    ghost var v0, a0 := ToMat(v), ToMat(a);
    ProgressHere(v0, a0, m);
    ContractedStart(a0);
    for sweep := 0 to 50
      invariant Progress(v0, a0, ToMat(v), ToMat(a), m)
      invariant Contracted(a0, ToMat(a), sweep)
    {
      if Abs(a[0, 1]) + Abs(a[0, 2]) + Abs(a[1, 2]) < TOL {
        Settles(a0, ToMat(a));
        return;
      }
      ghost var v1, a1 := ToMat(v), ToMat(a);
      Sweep(a, v, sqrt, m);
      ProgressOn(v0, a0, v1, a1, ToMat(v), ToMat(a), m);
      ContractedSymmetric(a0, a1, sweep);
      ContractedNext(a0, a1, ToMat(a), sweep);
    }
    ContractedEnd(a0, ToMat(a));
  }

  lemma ContractedStart(m: Mat3)
    requires Symmetric(m)
    ensures Contracted(m, m, 0)
  {
    hide Symmetric, Off;
  }

  lemma ContractedSymmetric(m: Mat3, a: Mat3, k: nat)
    requires Contracted(m, a, k)
    ensures Symmetric(a)
  {}

  lemma Settles(m: Mat3, d: Mat3)
    requires Spread(d) < TOL
    ensures Converged(m, d)
  {}

  lemma ContractedEnd(m: Mat3, d: Mat3)
    requires Contracted(m, d, 50)
    ensures Converged(m, d)
  {
    hide Contraction, Off;
  }

  /** Decomposes the symmetric matrix in `ain`.  Whatever the number of sweeps,
      `v` is orthogonal and takes a symmetric `d`, with the returned eigenvalue
      estimates on its diagonal, back to the input exactly.  The off-diagonal
      part of `d` is below the tolerance or has shrunk by the factor of fifty
      sweeps; for inputs of moderate size it is always below the tolerance. */
  method Eig3(ain: array2<real>, w: array<real>, v: array2<real>, sqrt: real -> real) returns (ghost d: Mat3)
    requires ain.Length0 == ain.Length1 == v.Length0 == v.Length1 == 3 && ain != v && w.Length == 3
    requires IsSqrt(sqrt) && Symmetric(ToMat(ain))
    modifies w, v
    ensures ToMat(ain) == old(ToMat(ain))
    ensures Splits(ToMat(ain), ToMat(v), d)
    ensures w[0] == d.r0.x && w[1] == d.r1.y && w[2] == d.r2.z
    ensures Off(ToMat(ain)) <= 50000.0 ==> Spread(d) < 1e-12
  {
    hide Progress, Splits, Symmetric, Converged, Off, Spread;
    ghost var m := ToMat(ain);
    var a := CopyMatrix(ain);
    SetIdentity(v);
    Iterate(a, v, sqrt, m);
    d := ToMat(a);
    FromIdentity(m, ToMat(v), d);
    SplitsSettle(m, ToMat(v), d);
    w[0], w[1], w[2] := a[0, 0], a[1, 1], a[2, 2];
  }

  lemma SplitsSettle(m: Mat3, v: Mat3, d: Mat3)
    requires Splits(m, v, d)
    ensures Off(m) <= 50000.0 ==> Spread(d) < TOL
    ensures SquaredSpread(d) <= SpreadLimit(m)
  {
    hide Converged, Off, Spread;
    if Off(m) <= 50000.0 {
      ModestSettles(m, d);
    }
    SpreadBound(m, d);
  }
}
