/** 3-vectors and 3x3 matrices over the reals, with the algebra the calibration
    proofs need. */
module Matrix3 {

  datatype Vec3 = Vec3(x: real, y: real, z: real) {
    function At(i: nat): real
      requires i < 3
    {
      if i == 0 then x else if i == 1 then y else z
    }
  }

  datatype Mat3 = Mat3(r0: Vec3, r1: Vec3, r2: Vec3) {
    function Row(i: nat): Vec3
      requires i < 3
    {
      if i == 0 then r0 else if i == 1 then r1 else r2
    }

    function Col(j: nat): Vec3
      requires j < 3
    {
      Vec3(r0.At(j), r1.At(j), r2.At(j))
    }

    function At(i: nat, j: nat): real
      requires i < 3 && j < 3
    {
      Row(i).At(j)
    }
  }

  const ID := Diag(Vec3(1.0, 1.0, 1.0))

  function Diag(w: Vec3): Mat3 {
    Mat3(Vec3(w.x, 0.0, 0.0), Vec3(0.0, w.y, 0.0), Vec3(0.0, 0.0, w.z))
  }

  function Dot(u: Vec3, v: Vec3): real {
    u.x * v.x + u.y * v.y + u.z * v.z
  }

  function Add(u: Vec3, v: Vec3): Vec3 {
    Vec3(u.x + v.x, u.y + v.y, u.z + v.z)
  }

  function Sub(u: Vec3, v: Vec3): Vec3 {
    Vec3(u.x - v.x, u.y - v.y, u.z - v.z)
  }

  function Scale(k: real, v: Vec3): Vec3 {
    Vec3(k * v.x, k * v.y, k * v.z)
  }

  function Apply(m: Mat3, v: Vec3): Vec3 {
    Vec3(Dot(m.r0, v), Dot(m.r1, v), Dot(m.r2, v))
  }

  /** The row vector `v` times `m`. */
  function RowTimes(v: Vec3, m: Mat3): Vec3 {
    Vec3(Dot(v, m.Col(0)), Dot(v, m.Col(1)), Dot(v, m.Col(2)))
  }

  function Mul(a: Mat3, b: Mat3): Mat3 {
    Mat3(RowTimes(a.r0, b), RowTimes(a.r1, b), RowTimes(a.r2, b))
  }

  function Transpose(m: Mat3): Mat3 {
    Mat3(m.Col(0), m.Col(1), m.Col(2))
  }

  function MatSub(a: Mat3, b: Mat3): Mat3 {
    Mat3(Sub(a.r0, b.r0), Sub(a.r1, b.r1), Sub(a.r2, b.r2))
  }

  function MatScale(k: real, m: Mat3): Mat3 {
    Mat3(Scale(k, m.r0), Scale(k, m.r1), Scale(k, m.r2))
  }

  function Cross(u: Vec3, v: Vec3): Vec3 {
    Vec3(u.y * v.z - u.z * v.y, u.z * v.x - u.x * v.z, u.x * v.y - u.y * v.x)
  }

  function Det(m: Mat3): real {
    Dot(m.r0, Cross(m.r1, m.r2))
  }

  ghost predicate Symmetric(m: Mat3) {
    Transpose(m) == m
  }

  ghost predicate Orthogonal(m: Mat3) {
    Mul(Transpose(m), m) == ID && Mul(m, Transpose(m)) == ID
  }

  lemma RowTimesAssoc(v: Vec3, a: Mat3, b: Mat3)
    ensures RowTimes(RowTimes(v, a), b) == RowTimes(v, Mul(a, b))
  {}

  lemma MulAssoc(a: Mat3, b: Mat3, c: Mat3)
    ensures Mul(Mul(a, b), c) == Mul(a, Mul(b, c))
  {
    RowTimesAssoc(a.r0, b, c);
    RowTimesAssoc(a.r1, b, c);
    RowTimesAssoc(a.r2, b, c);
  }

  lemma TransposeMul(a: Mat3, b: Mat3)
    ensures Transpose(Mul(a, b)) == Mul(Transpose(b), Transpose(a))
  {}

  lemma TransposeTwice(a: Mat3)
    ensures Transpose(Transpose(a)) == a
  {}

  lemma MulId(a: Mat3)
    ensures Mul(a, ID) == a && Mul(ID, a) == a
  {}

  lemma ApplyMul(a: Mat3, b: Mat3, v: Vec3)
    ensures Apply(Mul(a, b), v) == Apply(a, Apply(b, v))
  {}

  /** A matrix may be moved across a dot product by transposing it. */
  lemma DotApply(u: Vec3, m: Mat3, v: Vec3)
    ensures Dot(u, Apply(m, v)) == Dot(Apply(Transpose(m), u), v)
  {}

  lemma DotSwap(a: Vec3, b: Vec3)
    ensures Dot(a, b) == Dot(b, a)
  {}

  lemma DotAdd(a: Vec3, b: Vec3, c: Vec3)
    ensures Dot(Add(a, b), c) == Dot(a, c) + Dot(b, c)
    ensures Dot(c, Add(a, b)) == Dot(c, a) + Dot(c, b)
  {}

  lemma DotSub(a: Vec3, b: Vec3, c: Vec3)
    ensures Dot(Sub(a, b), c) == Dot(a, c) - Dot(b, c)
    ensures Dot(c, Sub(a, b)) == Dot(c, a) - Dot(c, b)
  {}

  lemma DotScale(k: real, a: Vec3, b: Vec3)
    ensures Dot(Scale(k, a), b) == k * Dot(a, b) && Dot(a, Scale(k, b)) == k * Dot(a, b)
  {}

  lemma ApplyAdd(m: Mat3, a: Vec3, b: Vec3)
    ensures Apply(m, Add(a, b)) == Add(Apply(m, a), Apply(m, b))
  {
    hide Dot;
    DotAdd(a, b, m.r0);
    DotAdd(a, b, m.r1);
    DotAdd(a, b, m.r2);
  }

  lemma ScaleMul(v: Vec3, h: real, k: real)
    ensures Scale(h, Scale(k, v)) == Scale(h * k, v)
  {
    assert h * (k * v.x) == h * k * v.x;
    assert h * (k * v.y) == h * k * v.y;
    assert h * (k * v.z) == h * k * v.z;
  }

  lemma MatScaleMul(h: real, k: real, m: Mat3)
    ensures MatScale(h, MatScale(k, m)) == MatScale(h * k, m)
  {
    hide Scale;
    ScaleMul(m.r0, h, k);
    ScaleMul(m.r1, h, k);
    ScaleMul(m.r2, h, k);
  }

  lemma RowTimesScale(v: Vec3, k: real, m: Mat3)
    ensures RowTimes(v, MatScale(k, m)) == Scale(k, RowTimes(v, m))
    ensures RowTimes(Scale(k, v), m) == Scale(k, RowTimes(v, m))
  {
    hide Dot, Scale;
    var n := MatScale(k, m);
    ColumnScale(k, m);
    DotScale(k, v, m.Col(0));
    DotScale(k, v, m.Col(1));
    DotScale(k, v, m.Col(2));
    ScaleParts(k, RowTimes(v, m));
  }

  lemma ScaleParts(k: real, v: Vec3)
    ensures Scale(k, v) == Vec3(k * v.x, k * v.y, k * v.z)
  {}

  lemma ColumnScale(k: real, m: Mat3)
    ensures MatScale(k, m).Col(0) == Scale(k, m.Col(0))
    ensures MatScale(k, m).Col(1) == Scale(k, m.Col(1))
    ensures MatScale(k, m).Col(2) == Scale(k, m.Col(2))
  {}

  lemma MulScale(a: Mat3, k: real, b: Mat3)
    ensures Mul(a, MatScale(k, b)) == MatScale(k, Mul(a, b))
    ensures Mul(MatScale(k, a), b) == MatScale(k, Mul(a, b))
  {
    hide RowTimes, Scale;
    RowTimesScale(a.r0, k, b);
    RowTimesScale(a.r1, k, b);
    RowTimesScale(a.r2, k, b);
  }

  lemma RowTimesSub(v: Vec3, w: Vec3, a: Mat3, b: Mat3)
    ensures RowTimes(v, MatSub(a, b)) == Sub(RowTimes(v, a), RowTimes(v, b))
    ensures RowTimes(Sub(v, w), a) == Sub(RowTimes(v, a), RowTimes(w, a))
  {
    var n := MatSub(a, b);
    assert n.Col(0) == Sub(a.Col(0), b.Col(0)) && n.Col(1) == Sub(a.Col(1), b.Col(1));
    assert n.Col(2) == Sub(a.Col(2), b.Col(2));
    hide Dot;
    forall j: nat | j < 3
      ensures Dot(v, n.Col(j)) == Dot(v, a.Col(j)) - Dot(v, b.Col(j))
      ensures Dot(Sub(v, w), a.Col(j)) == Dot(v, a.Col(j)) - Dot(w, a.Col(j))
    {
      DotSub(a.Col(j), b.Col(j), v);
      DotSub(v, w, a.Col(j));
    }
  }

  lemma MulSub(a: Mat3, b: Mat3, c: Mat3)
    ensures Mul(a, MatSub(b, c)) == MatSub(Mul(a, b), Mul(a, c))
    ensures Mul(MatSub(b, c), a) == MatSub(Mul(b, a), Mul(c, a))
  {
    hide RowTimes, Sub;
    RowTimesSub(a.r0, a.r0, b, c);
    RowTimesSub(a.r1, a.r1, b, c);
    RowTimesSub(a.r2, a.r2, b, c);
    RowTimesSub(b.r0, c.r0, a, a);
    RowTimesSub(b.r1, c.r1, a, a);
    RowTimesSub(b.r2, c.r2, a, a);
  }

  lemma ApplyScaleSub(k: real, a: Mat3, b: Mat3, x: Vec3)
    ensures Apply(MatScale(k, MatSub(a, b)), x) == Scale(k, Sub(Apply(a, x), Apply(b, x)))
  {
    hide Dot;
    forall i: nat | i < 3
      ensures Dot(Scale(k, Sub(a.Row(i), b.Row(i))), x) == k * (Dot(a.Row(i), x) - Dot(b.Row(i), x))
    {
      DotScale(k, Sub(a.Row(i), b.Row(i)), x);
      DotSub(a.Row(i), b.Row(i), x);
    }
    assert a.r0 == a.Row(0) && a.r1 == a.Row(1) && a.r2 == a.Row(2);
    assert b.r0 == b.Row(0) && b.r1 == b.Row(1) && b.r2 == b.Row(2);
  }

  lemma ApplyZero(m: Mat3)
    ensures Apply(m, Vec3(0.0, 0.0, 0.0)) == Vec3(0.0, 0.0, 0.0)
  {}

  /** The transposed cofactors. */
  function Adjugate(m: Mat3): Mat3 {
    Transpose(Mat3(Cross(m.r1, m.r2), Cross(m.r2, m.r0), Cross(m.r0, m.r1)))
  }

  lemma CrossSelf(u: Vec3, v: Vec3)
    ensures Dot(u, Cross(u, v)) == 0.0 && Dot(v, Cross(u, v)) == 0.0
  {
    assert u.x * (u.y * v.z - u.z * v.y) == u.x * u.y * v.z - u.x * u.z * v.y;
    assert u.y * (u.z * v.x - u.x * v.z) == u.y * u.z * v.x - u.x * u.y * v.z;
    assert u.z * (u.x * v.y - u.y * v.x) == u.x * u.z * v.y - u.y * u.z * v.x;
    assert v.x * (u.y * v.z - u.z * v.y) == u.y * v.x * v.z - u.z * v.x * v.y;
    assert v.y * (u.z * v.x - u.x * v.z) == u.z * v.x * v.y - u.x * v.y * v.z;
    assert v.z * (u.x * v.y - u.y * v.x) == u.x * v.y * v.z - u.y * v.x * v.z;
  }

  /** The triple product does not change when its factors are rotated. */
  lemma Cyclic(p: Vec3, q: Vec3, r: Vec3)
    ensures Dot(q, Cross(r, p)) == Dot(p, Cross(q, r))
  {
    assert q.x * (r.y * p.z - r.z * p.y) == p.z * q.x * r.y - p.y * q.x * r.z;
    assert q.y * (r.z * p.x - r.x * p.z) == p.x * q.y * r.z - p.z * q.y * r.x;
    assert q.z * (r.x * p.y - r.y * p.x) == p.y * q.z * r.x - p.x * q.z * r.y;
    assert p.x * (q.y * r.z - q.z * r.y) == p.x * q.y * r.z - p.x * q.z * r.y;
    assert p.y * (q.z * r.x - q.x * r.z) == p.y * q.z * r.x - p.y * q.x * r.z;
    assert p.z * (q.x * r.y - q.y * r.x) == p.z * q.x * r.y - p.z * q.y * r.x;
  }

  lemma AdjugateProduct(m: Mat3)
    ensures Mul(m, Adjugate(m)) == MatScale(Det(m), ID)
  {
    var p, q, r := m.r0, m.r1, m.r2;
    var a := Adjugate(m);
    assert a.Col(0) == Cross(q, r) && a.Col(1) == Cross(r, p) && a.Col(2) == Cross(p, q);
    hide Dot, Cross, Adjugate;
    CrossSelf(p, q);
    CrossSelf(q, r);
    CrossSelf(r, p);
    Cyclic(p, q, r);
    Cyclic(q, r, p);
  }

  lemma ApplyId(v: Vec3)
    ensures Apply(ID, v) == v
  {}

  // ----- determinants

  lemma Lagrange(u: Vec3, v: Vec3, p: Vec3, q: Vec3)
    ensures Dot(u, p) * Dot(v, q) - Dot(u, q) * Dot(v, p) == Dot(Cross(u, v), Cross(p, q))
  {}

  function Minor(a: real, b: real, c: real, d: real): real {
    a * b - c * d
  }

  lemma CrossMinors(u: Vec3, v: Vec3)
    ensures Cross(u, v) == Vec3(Minor(u.y, v.z, u.z, v.y), Minor(u.z, v.x, u.x, v.z), Minor(u.x, v.y, u.y, v.x))
  {}

  lemma MinorSwap(a: real, b: real, c: real, d: real)
    ensures Minor(a, b, c, d) == Minor(a, b, d, c)
  {}

  /** The cross product of two columns is a row of the adjugate. */
  lemma CrossColumns(p: Vec3, q: Vec3, r: Vec3)
    ensures Vec3(Cross(q, r).x, Cross(r, p).x, Cross(p, q).x) == Cross(Vec3(p.y, q.y, r.y), Vec3(p.z, q.z, r.z))
    ensures Vec3(Cross(q, r).y, Cross(r, p).y, Cross(p, q).y) == Cross(Vec3(p.z, q.z, r.z), Vec3(p.x, q.x, r.x))
    ensures Vec3(Cross(q, r).z, Cross(r, p).z, Cross(p, q).z) == Cross(Vec3(p.x, q.x, r.x), Vec3(p.y, q.y, r.y))
  {
    var x, y, z := Vec3(p.x, q.x, r.x), Vec3(p.y, q.y, r.y), Vec3(p.z, q.z, r.z);
    forall a, b, c, d ensures Minor(a, b, c, d) == Minor(a, b, d, c) {
      MinorSwap(a, b, c, d);
    }
    hide Cross, Minor;
    CrossMinors(q, r);
    CrossMinors(r, p);
    CrossMinors(p, q);
    CrossMinors(x, y);
    CrossMinors(y, z);
    CrossMinors(z, x);
  }

  lemma AdjugateRows(b: Mat3)
    ensures Adjugate(b) == Mat3(Cross(b.Col(1), b.Col(2)), Cross(b.Col(2), b.Col(0)), Cross(b.Col(0), b.Col(1)))
  {
    hide Cross;
    CrossColumns(b.r0, b.r1, b.r2);
  }

  lemma CrossTimes(u: Vec3, v: Vec3, b: Mat3)
    ensures Cross(RowTimes(u, b), RowTimes(v, b)) == Apply(Adjugate(b), Cross(u, v))
  {
    var c0, c1, c2 := b.Col(0), b.Col(1), b.Col(2);
    var x, y := RowTimes(u, b), RowTimes(v, b);
    assert Cross(x, y) == Vec3(x.y * y.z - x.z * y.y, x.z * y.x - x.x * y.z, x.x * y.y - x.y * y.x);
    hide Dot, Cross, Adjugate, Mat3.Col;
    AdjugateRows(b);
    Lagrange(u, v, c1, c2);
    Lagrange(u, v, c2, c0);
    Lagrange(u, v, c0, c1);
    DotSwap(Cross(c1, c2), Cross(u, v));
    DotSwap(Cross(c2, c0), Cross(u, v));
    DotSwap(Cross(c0, c1), Cross(u, v));
  }

  lemma ApplyScaledId(d: real, w: Vec3)
    ensures Apply(MatScale(d, ID), w) == Scale(d, w)
  {}

  lemma RowTimesTransposed(u: Vec3, b: Mat3)
    ensures RowTimes(u, b) == Apply(Transpose(b), u)
  {}

  lemma DetMul(a: Mat3, b: Mat3)
    ensures Det(Mul(a, b)) == Det(a) * Det(b)
  {
    var u, w := a.r0, Cross(a.r1, a.r2);
    hide Dot, Cross, Adjugate, Transpose, Apply, RowTimes, MatScale, Scale;
    RowTimesTransposed(u, b);
    CrossTimes(a.r1, a.r2, b);
    DotApply(u, b, Apply(Adjugate(b), w));
    ApplyMul(b, Adjugate(b), w);
    AdjugateProduct(b);
    ApplyScaledId(Det(b), w);
    DotScale(Det(b), u, w);
  }

  lemma DetTranspose(m: Mat3)
    ensures Det(Transpose(m)) == Det(m)
  {}

  lemma DetDiag(w: Vec3)
    ensures Det(Diag(w)) == w.x * w.y * w.z
  {}

  lemma ScaleIsProduct(k: real, m: Mat3)
    ensures MatScale(k, m) == Mul(Diag(Vec3(k, k, k)), m)
  {}

  lemma DetScale(k: real, m: Mat3)
    ensures Det(MatScale(k, m)) == k * k * k * Det(m)
  {
    hide Det, Mul, MatScale;
    ScaleIsProduct(k, m);
    DetMul(Diag(Vec3(k, k, k)), m);
    DetDiag(Vec3(k, k, k));
  }

  // ----- the inverse

  lemma Divided(m: Mat3, a: Mat3, det: real)
    requires det != 0.0 && Mul(m, a) == MatScale(det, ID)
    ensures Mul(m, MatScale(1.0 / det, a)) == ID
  {
    hide Mul, MatScale;
    var k := 1.0 / det;
    calc {
      Mul(m, MatScale(k, a));
    == { MulScale(m, k, a); }
      MatScale(k, MatScale(det, ID));
    == { MatScaleMul(k, det, ID); assert k * det == 1.0; }
      MatScale(1.0, ID);
    == { ScaleOne(ID); }
      ID;
    }
  }

  lemma ScaleOne(m: Mat3)
    ensures MatScale(1.0, m) == m
  {}

  lemma RightInverse(m: Mat3)
    requires Det(m) != 0.0
    ensures Mul(m, MatScale(1.0 / Det(m), Adjugate(m))) == ID
  {
    hide Adjugate, Mul, MatScale;
    AdjugateProduct(m);
    Divided(m, Adjugate(m), Det(m));
  }

  /** What a matrix is multiplied by can be divided out. */
  lemma CancelRight(x: Mat3, y: Mat3, m: Mat3)
    requires Det(m) != 0.0 && Mul(x, m) == Mul(y, m)
    ensures x == y
  {
    var i := MatScale(1.0 / Det(m), Adjugate(m));
    RightInverse(m);
    hide Adjugate, Mul, MatScale;
    MulAssoc(x, m, i);
    MulAssoc(y, m, i);
    MulId(x);
    MulId(y);
  }
}
