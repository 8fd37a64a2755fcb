/** The ellipsoid fit: solve for the nine quadric parameters, find the centre,
    split the quadric matrix and rebuild its square root.  The claims here are
    about the composition: where the centre is, and what the shape matrix does
    to the points of the fitted quadric. */
module EllipsoidFit {
  import opened Reals
  import opened Matrix3
  import opened Jacobi
  import LinearSystem
  import GaussJordan
  import CubeRoot

  /** The smallest determinant the 3x3 inverse accepts. */
  const DET_MIN := 1e-20

  // ----- the quadric  x^T Q x + 2 u^T x = 1

  function QuadricMatrix(p: seq<real>): Mat3
    requires |p| == 9
  {
    Mat3(Vec3(p[0], p[5], p[4]), Vec3(p[5], p[1], p[3]), Vec3(p[4], p[3], p[2]))
  }

  function QuadricVector(p: seq<real>): Vec3
    requires |p| == 9
  {
    Vec3(p[6], p[7], p[8])
  }

  function Form(q: Mat3, x: Vec3): real {
    Dot(x, Apply(q, x))
  }

  ghost predicate OnQuadric(q: Mat3, u: Vec3, x: Vec3) {
    Form(q, x) + 2.0 * Dot(u, x) == 1.0
  }

  /** The quadric itself: what each sample contributes, in the order of the nine
      parameters, is [x^2, y^2, z^2, 2yz, 2xz, 2xy, 2x, 2y, 2z]. */
  ghost function Quadric(p: seq<real>, x: Vec3): real
    requires |p| == 9
  {
    p[0] * (x.x * x.x) + p[1] * (x.y * x.y) + p[2] * (x.z * x.z) +
    p[3] * (2.0 * x.y * x.z) + p[4] * (2.0 * x.x * x.z) + p[5] * (2.0 * x.x * x.y) +
    p[6] * (2.0 * x.x) + p[7] * (2.0 * x.y) + p[8] * (2.0 * x.z)
  }

  /** The matrix and the vector stand for that quadric. */
  lemma QuadricIs(p: seq<real>, x: Vec3)
    requires |p| == 9
    ensures Form(QuadricMatrix(p), x) + 2.0 * Dot(QuadricVector(p), x) == Quadric(p, x)
  {
    FormTerms(p, x);
    VectorTerms(p, x);
    QuadricTerms(p, x);
    hide Form, Dot, Monomial, Quadric;
  }

  ghost function Monomial(a: real, y: real, z: real): real {
    y * (a * z)
  }

  lemma FormTerms(p: seq<real>, x: Vec3)
    requires |p| == 9
    ensures Form(QuadricMatrix(p), x) ==
      Monomial(p[0], x.x, x.x) + Monomial(p[5], x.x, x.y) + Monomial(p[4], x.x, x.z) +
      (Monomial(p[5], x.y, x.x) + Monomial(p[1], x.y, x.y) + Monomial(p[3], x.y, x.z)) +
      (Monomial(p[4], x.z, x.x) + Monomial(p[3], x.z, x.y) + Monomial(p[2], x.z, x.z))
  {
    var q := QuadricMatrix(p);
    assert Form(q, x) == x.x * Dot(q.r0, x) + x.y * Dot(q.r1, x) + x.z * Dot(q.r2, x);
    hide Form, Dot, Monomial;
    RowTerms(x.x, p[0], p[5], p[4], x);
    RowTerms(x.y, p[5], p[1], p[3], x);
    RowTerms(x.z, p[4], p[3], p[2], x);
  }

  lemma RowTerms(k: real, a: real, b: real, c: real, x: Vec3)
    ensures k * Dot(Vec3(a, b, c), x) == Monomial(a, k, x.x) + Monomial(b, k, x.y) + Monomial(c, k, x.z)
  {}

  lemma VectorTerms(p: seq<real>, x: Vec3)
    requires |p| == 9
    ensures 2.0 * Dot(QuadricVector(p), x) ==
      Monomial(p[6], 2.0, x.x) + Monomial(p[7], 2.0, x.y) + Monomial(p[8], 2.0, x.z)
  {}

  lemma QuadricTerms(p: seq<real>, x: Vec3)
    requires |p| == 9
    ensures Quadric(p, x) ==
      Monomial(p[0], x.x, x.x) + Monomial(p[1], x.y, x.y) + Monomial(p[2], x.z, x.z) +
      (Monomial(p[3], x.y, x.z) + Monomial(p[3], x.z, x.y)) + (Monomial(p[4], x.x, x.z) + Monomial(p[4], x.z, x.x)) +
      (Monomial(p[5], x.x, x.y) + Monomial(p[5], x.y, x.x)) +
      (Monomial(p[6], 2.0, x.x) + Monomial(p[7], 2.0, x.y) + Monomial(p[8], 2.0, x.z))
  {
    hide Monomial;
    Mixed(p[3], x.y, x.z);
    Mixed(p[4], x.x, x.z);
    Mixed(p[5], x.x, x.y);
    Pure(p[0], p[6], x.x);
    Pure(p[1], p[7], x.y);
    Pure(p[2], p[8], x.z);
  }

  lemma Mixed(a: real, y: real, z: real)
    ensures a * (2.0 * y * z) == Monomial(a, y, z) + Monomial(a, z, y)
  {}

  lemma Pure(a: real, b: real, y: real)
    ensures a * (y * y) == Monomial(a, y, y) && b * (2.0 * y) == Monomial(b, 2.0, y)
  {}

  /** Only the zero vector has a form value of zero or less. */
  ghost predicate PositiveDefinite(q: Mat3) {
    forall y: Vec3 :: y != Vec3(0.0, 0.0, 0.0) ==> Form(q, y) > 0.0
  }

  // ----- the 3x3 inverse

  datatype Inverse = Singular | Inverse(m: Mat3)

  function Inv3x3(m: Mat3): Inverse {
    var det := Det(m);
    if Abs(det) < DET_MIN then Singular else Inverse(MatScale(1.0 / det, Adjugate(m)))
  }

  /** Whenever an inverse is returned it undoes the matrix. */
  lemma InverseUndoes(m: Mat3)
    requires Inv3x3(m).Inverse?
    ensures Mul(m, Inv3x3(m).m) == ID
  {
    RightInverse(m);
  }

  // ----- geometry of the centre

  /** Seen from the centre, the quadric has no linear term. */
  lemma Centred(q: Mat3, u: Vec3, c: Vec3, x: Vec3)
    requires Symmetric(q) && Apply(q, c) == Scale(-1.0, u)
    ensures Form(q, x) + 2.0 * Dot(u, x) == Form(q, Sub(x, c)) - Form(q, c)
  {
    var y := Sub(x, c);
    assert x == Add(y, c);
    assert u == Scale(-1.0, Apply(q, c));
    hide Apply, Dot, Add, Sub, Scale;
    var qy, qc := Apply(q, y), Apply(q, c);
    ApplyAdd(q, y, c);
    DotAdd(y, c, Add(qy, qc));
    DotAdd(qy, qc, y);
    DotAdd(qy, qc, c);
    DotApply(c, q, y);
    DotSwap(qc, y);
    DotScale(-1.0, qc, x);
    DotAdd(y, c, qc);
    DotSwap(qc, x);
  }

  // ----- the square root of the quadric matrix

  /** What is left off the diagonal when the iteration stops. */
  function Remainder(d: Mat3): Mat3 {
    MatSub(d, Diag(Diagonal(d)))
  }

  /** The remainder as it appears in the original axes. */
  function Residual(v: Mat3, d: Mat3): Mat3 {
    Mul(Mul(v, Remainder(d)), Transpose(v))
  }

  function Conjugate(v: Mat3, s: Vec3): Mat3 {
    Mul(Mul(v, Diag(s)), Transpose(v))
  }

  lemma SubSub(a: Mat3, b: Mat3)
    ensures MatSub(a, MatSub(a, b)) == b
  {}

  lemma DiagSquare(s: Vec3, w: Vec3)
    requires s.x * s.x == w.x && s.y * s.y == w.y && s.z * s.z == w.z
    ensures Mul(Diag(s), Diag(s)) == Diag(w) && Transpose(Diag(s)) == Diag(s)
  {}

  /** (V diag(s) V^T)^2 = V diag(s^2) V^T for orthogonal V. */
  lemma ConjugateSquare(v: Mat3, s: Vec3, w: Vec3)
    requires Orthogonal(v)
    requires s.x * s.x == w.x && s.y * s.y == w.y && s.z * s.z == w.z
    ensures Mul(Conjugate(v, s), Conjugate(v, s)) == Conjugate(v, w)
  {
    DiagSquare(s, w);
    hide Mul, Transpose, Diag;
    var ds, vt := Diag(s), Transpose(v);
    var a := Mul(v, ds);
    calc {
      Mul(Mul(a, vt), Mul(a, vt));
    == { MulAssoc(a, vt, Mul(a, vt)); MulAssoc(vt, a, vt); }
      Mul(a, Mul(Mul(vt, a), vt));
    == { MulAssoc(vt, v, ds); MulId(ds); }
      Mul(a, Mul(ds, vt));
    == { MulAssoc(a, ds, vt); MulAssoc(v, ds, ds); }
      Mul(Mul(v, Diag(w)), vt);
    }
  }

  lemma ConjugateSymmetric(v: Mat3, s: Vec3)
    ensures Symmetric(Conjugate(v, s))
  {
    assert Transpose(Diag(s)) == Diag(s);
    hide Mul, Transpose, Diag;
    TransposeMul(Mul(v, Diag(s)), Transpose(v));
    TransposeMul(v, Diag(s));
    TransposeTwice(v);
    MulAssoc(v, Diag(s), Transpose(v));
  }

  /** The diagonal part, conjugated back, misses the matrix by the residual. */
  lemma DiagonalPart(q: Mat3, v: Mat3, d: Mat3)
    requires Decomposes(v, d, q)
    ensures Conjugate(v, Diagonal(d)) == MatSub(q, Residual(v, d))
  {
    var dd := Diag(Diagonal(d));
    hide Mul, Transpose, Diag, MatSub, Diagonal;
    SubSub(d, dd);
    MulSub(v, d, Remainder(d));
    MulSub(Transpose(v), Mul(v, d), Mul(v, Remainder(d)));
  }

  /** The factor a scale applies to squared lengths. */
  function Gain(scale: real): real {
    scale * scale
  }

  /** A squared radius after that factor. */
  function SquaredRadius(gain: real, m: real): real {
    gain * m
  }

  /** How far off the sphere a matrix's spread can put a point. */
  function Allowance(d: Mat3, y: Vec3): real {
    Spread(d) * Dot(y, y)
  }

  /** soft^2 = scale^2 (Q - residual), whatever the iteration left over. */
  lemma SoftSquared(q: Mat3, v: Mat3, d: Mat3, s: Vec3, scale: real)
    requires Decomposes(v, d, q)
    requires s.x * s.x == d.r0.x && s.y * s.y == d.r1.y && s.z * s.z == d.r2.z
    ensures var soft := MatScale(scale, Conjugate(v, s));
      Symmetric(soft) && Mul(soft, soft) == MatScale(Gain(scale), MatSub(q, Residual(v, d)))
  {
    var k := Conjugate(v, s);
    ConjugateSquare(v, s, Diagonal(d));
    ConjugateSymmetric(v, s);
    DiagonalPart(q, v, d);
    TransposeScale(scale, k);
    hide Mul, MatScale, Conjugate, Residual, MatSub, Decomposes, Transpose;
    MulScale(MatScale(scale, k), scale, k);
    MulScale(k, scale, k);
    MatScaleMul(scale, scale, Mul(k, k));
  }

  lemma TransposeScale(k: real, m: Mat3)
    ensures Transpose(MatScale(k, m)) == MatScale(k, Transpose(m))
  {}

  lemma FormScaleSub(k: real, a: Mat3, b: Mat3, x: Vec3)
    ensures Form(MatScale(k, MatSub(a, b)), x) == k * (Form(a, x) - Form(b, x))
  {
    hide Apply, Dot, MatScale, MatSub, Sub, Scale;
    var ax, bx := Apply(a, x), Apply(b, x);
    ApplyScaleSub(k, a, b, x);
    DotSub(ax, bx, x);
    DotScale(k, x, Sub(ax, bx));
  }

  /** Every point of the fitted quadric lands at one squared distance from the
      origin, off by exactly the residual's form. */
  lemma MapsToSphere(q: Mat3, u: Vec3, c: Vec3, soft: Mat3, r: Mat3, gain: real, x: Vec3)
    requires Symmetric(q) && Apply(q, c) == Scale(-1.0, u) && OnQuadric(q, u, x)
    requires Symmetric(soft) && Mul(soft, soft) == MatScale(gain, MatSub(q, r))
    ensures var y := Sub(x, c); var z := Apply(soft, y);
      Dot(z, z) == SquaredRadius(gain, 1.0 + Form(q, c) - Form(r, y))
  {
    hide Mul, MatScale, MatSub, Sub, Dot, Apply, Transpose, Scale;
    var y := Sub(x, c);
    var z := Apply(soft, y);
    DotApply(z, soft, y);
    ApplyMul(soft, soft, y);
    DotSwap(Apply(soft, z), y);
    FormScaleSub(gain, q, r, y);
    Centred(q, u, c, x);
  }

  // ----- the residual is small once the sweep test has passed

  lemma ConjugateForm(v: Mat3, e: Mat3, y: Vec3)
    ensures Form(Mul(Mul(v, e), Transpose(v)), y) == Form(e, Apply(Transpose(v), y))
  {
    var vt := Transpose(v);
    hide Mul, Transpose, Dot, Apply;
    ApplyMul(Mul(v, e), vt, y);
    ApplyMul(v, e, Apply(vt, y));
    DotApply(y, v, Apply(e, Apply(vt, y)));
  }

  lemma OrthogonalKeepsLength(v: Mat3, y: Vec3)
    requires Orthogonal(v)
    ensures Dot(Apply(Transpose(v), y), Apply(Transpose(v), y)) == Dot(y, y)
  {
    var vt := Transpose(v);
    hide Mul, Transpose, Dot, Apply;
    ApplyId(y);
    TransposeTwice(v);
    DotApply(Apply(vt, y), vt, y);
    ApplyMul(v, vt, y);
  }

  lemma CrossTerm(e: real, a: real, b: real, n: real)
    requires a * a + b * b <= n
    ensures Abs(2.0 * e * (a * b)) <= Abs(e) * n
  {
    var m := a * b;
    var lo, hi := a - b, a + b;
    assert lo * lo == a * a + b * b - 2.0 * m;
    assert hi * hi == a * a + b * b + 2.0 * m;
    assert lo * lo >= 0.0 && hi * hi >= 0.0;
    assert -n <= 2.0 * m <= n;
    Times(2.0 * m, n, Abs(e));
    Times(-n, 2.0 * m, Abs(e));
    assert 2.0 * e * m == e * (2.0 * m);
  }

  lemma RemainderForm(d: Mat3, y: Vec3)
    requires Symmetric(d)
    ensures Abs(Form(Remainder(d), y)) <= Spread(d) * Dot(y, y)
  {
    hide Dot, Form, Remainder, Symmetric, Abs;
    RemainderExpanded(d, y);
    SquaresAdd(y);
    CrossTerms(d.r0.y, d.r0.z, d.r1.z, y.x, y.y, y.z, Dot(y, y), Form(Remainder(d), y));
  }

  lemma SquaresAdd(y: Vec3)
    ensures y.x * y.x + y.y * y.y <= Dot(y, y)
    ensures y.x * y.x + y.z * y.z <= Dot(y, y)
    ensures y.y * y.y + y.z * y.z <= Dot(y, y)
  {
    assert y.x * y.x >= 0.0 && y.y * y.y >= 0.0 && y.z * y.z >= 0.0;
  }

  lemma RemainderExpanded(d: Mat3, y: Vec3)
    requires Symmetric(d)
    ensures Form(Remainder(d), y) ==
            2.0 * d.r0.y * (y.x * y.y) + 2.0 * d.r0.z * (y.x * y.z) + 2.0 * d.r1.z * (y.y * y.z)
  {}

  lemma CrossTerms(e: real, f: real, g: real, a: real, b: real, c: real, n: real, total: real)
    requires a * a + b * b <= n && a * a + c * c <= n && b * b + c * c <= n
    requires total == 2.0 * e * (a * b) + 2.0 * f * (a * c) + 2.0 * g * (b * c)
    ensures Abs(total) <= (Abs(e) + Abs(f) + Abs(g)) * n
  {
    hide Abs;
    CrossTerm(e, a, b, n);
    CrossTerm(f, a, c, n);
    CrossTerm(g, b, c, n);
    var s, t, r := 2.0 * e * (a * b), 2.0 * f * (a * c), 2.0 * g * (b * c);
    assert Abs(s) <= Abs(e) * n;
    assert Abs(t) <= Abs(f) * n;
    assert Abs(r) <= Abs(g) * n;
    Triangle(s, t, r);
    assert Abs(s + t + r) <= Abs(e) * n + Abs(f) * n + Abs(g) * n;
  }

  lemma Triangle(a: real, b: real, c: real)
    ensures Abs(a + b + c) <= Abs(a) + Abs(b) + Abs(c)
  {}

  /** The squared radius error is at most the spread times the squared distance. */
  lemma ResidualBound(q: Mat3, v: Mat3, d: Mat3, y: Vec3)
    requires Decomposes(v, d, q)
    ensures Abs(Form(Residual(v, d), y)) <= Allowance(d, y)
  {
    hide Mul, Dot, Apply, Spread, Transpose, Form;
    ConjugateForm(v, Remainder(d), y);
    OrthogonalKeepsLength(v, y);
    RemainderForm(d, Apply(Transpose(v), y));
  }

  lemma UnitForm(d: Mat3, i: nat)
    requires i < 3
    ensures Form(d, ID.Row(i)) == d.At(i, i) && ID.Row(i) != Vec3(0.0, 0.0, 0.0)
  {
    if i == 0 {
    } else if i == 1 {
    } else {
    }
  }

  /** A non-positive eigenvalue estimate always betrays a direction in which
      the quadric matrix is not positive. */
  lemma NotPositive(q: Mat3, v: Mat3, d: Mat3, i: nat)
    requires Decomposes(v, d, q) && i < 3 && d.At(i, i) <= 0.0
    ensures !PositiveDefinite(q)
  {
    hide Mul, Transpose, Apply, Form, Symmetric, Mat3.At, Mat3.Row;
    var e := ID.Row(i);
    var y := Apply(v, e);
    UnitForm(d, i);
    ApplyMul(Transpose(v), v, e);
    ApplyId(e);
    ApplyZero(Transpose(v));
    ConjugateForm(v, d, y);
    assert y != Vec3(0.0, 0.0, 0.0) && Form(q, y) <= 0.0;
  }

  // ----- the whole fit

  /** Everything a successful fit is made of.  `root` is the square root of the
      product of the eigenvalue estimates. */
  datatype Fit = Fit(p: seq<real>, v: Mat3, d: Mat3, sq: Vec3, root: real, scale: real) {
    ghost predicate Shaped() {
      |p| == 9
    }
  }

  datatype Outcome = Fitted | NoPivot | NoCentre | NotEllipsoid

  /** The offset is the quadric's centre. */
  ghost predicate IsCentre(p: seq<real>, c: Vec3)
    requires |p| == 9
  {
    Apply(QuadricMatrix(p), c) == Scale(-1.0, QuadricVector(p))
  }

  /** `sq` are the square roots of `w`, `root` that of their product, and the
      scale is the reciprocal of `root`'s cube root to within the tolerance. */
  ghost predicate RootsOf(w: Vec3, sq: Vec3, root: real, scale: real) {
    && sq.x > 0.0 && sq.y > 0.0 && sq.z > 0.0
    && sq.x * sq.x == w.x && sq.y * sq.y == w.y && sq.z * sq.z == w.z
    && root > 0.0 && root * root == w.x * w.y * w.z
    && scale > 0.0 && CubeRoot.Within(root, 1.0 / scale, CubeRoot.TOLERANCE)
  }

  ghost predicate Rooted(fit: Fit) {
    RootsOf(Diagonal(fit.d), fit.sq, fit.root, fit.scale)
  }

  /** The postcondition of a successful fit. */
  ghost predicate GoodFit(fit: Fit, c: Vec3, soft: Mat3) {
    && fit.Shaped()
    && IsCentre(fit.p, c)
    && Splits(QuadricMatrix(fit.p), fit.v, fit.d)
    && Rooted(fit)
    && soft == MatScale(fit.scale, Conjugate(fit.v, fit.sq))
  }

  lemma QuadricSymmetric(p: seq<real>)
    requires |p| == 9
    ensures Symmetric(QuadricMatrix(p))
  {}

  lemma QuadricPoint(p: seq<real>, x: Vec3)
    requires |p| == 9 && Quadric(p, x) == 1.0
    ensures OnQuadric(QuadricMatrix(p), QuadricVector(p), x)
  {
    hide Form, QuadricMatrix, QuadricVector, Quadric, Dot;
    QuadricIs(p, x);
  }

  /** How far above the centre's value the quadric's level is. */
  ghost function Level(p: seq<real>, c: Vec3): real
    requires |p| == 9
  {
    1.0 - Quadric(p, c)
  }

  lemma LevelIs(p: seq<real>, c: Vec3)
    requires |p| == 9 && IsCentre(p, c)
    ensures 1.0 + Form(QuadricMatrix(p), c) == Level(p, c)
  {
    var q, u := QuadricMatrix(p), QuadricVector(p);
    assert u == Scale(-1.0, Apply(q, c));
    QuadricIs(p, c);
    hide Quadric, QuadricMatrix, QuadricVector, Apply, Scale, Dot;
    DotScale(-1.0, Apply(q, c), c);
    DotSwap(Apply(q, c), c);
  }

  /** The centre is one of symmetry: the quadric has the same value at opposite
      points about it. */
  lemma CentreSymmetric(p: seq<real>, c: Vec3, y: Vec3)
    requires |p| == 9 && IsCentre(p, c)
    ensures Quadric(p, Add(c, y)) == Quadric(p, Sub(c, y))
  {
    var q, u := QuadricMatrix(p), QuadricVector(p);
    assert Sub(Add(c, y), c) == y && Sub(Sub(c, y), c) == Scale(-1.0, y);
    QuadricIs(p, Add(c, y));
    QuadricIs(p, Sub(c, y));
    hide Quadric, QuadricMatrix, QuadricVector, Apply, Scale, Dot, Add, Sub, Form;
    QuadricSymmetric(p);
    Centred(q, u, c, Add(c, y));
    Centred(q, u, c, Sub(c, y));
    FormScale(q, -1.0, y);
    OneGain(Form(q, y));
  }

  lemma OneGain(x: real)
    ensures SquaredRadius(Gain(-1.0), x) == x
  {}

  /** What a form that is not positive means for the quadric: along some direction
      its second difference is not positive. */
  lemma NotConvex(p: seq<real>) returns (y: Vec3)
    requires |p| == 9 && !PositiveDefinite(QuadricMatrix(p))
    ensures y != Vec3(0.0, 0.0, 0.0) && Quadric(p, y) + Quadric(p, Scale(-1.0, y)) <= 0.0
  {
    var q, u := QuadricMatrix(p), QuadricVector(p);
    y :| y != Vec3(0.0, 0.0, 0.0) && Form(q, y) <= 0.0;
    QuadricIs(p, y);
    QuadricIs(p, Scale(-1.0, y));
    hide Quadric, QuadricMatrix, QuadricVector, Apply, Scale, Dot, Form;
    FormScale(q, -1.0, y);
    OneGain(Form(q, y));
    DotScale(-1.0, u, y);
    DotScale(-1.0, y, u);
  }

  /** Twice the squares of the coefficients of the mixed terms. */
  ghost function MixedSize(p: seq<real>): real
    requires |p| == 9
  {
    2.0 * (p[3] * p[3] + p[4] * p[4] + p[5] * p[5])
  }

  lemma MixedIsOff(p: seq<real>)
    requires |p| == 9
    ensures Off(QuadricMatrix(p)) == MixedSize(p)
  {}

  /** Points of the fitted quadric are mapped to one squared radius, up to the
      form of the residual ... */
  lemma FitMapsToSphere(fit: Fit, c: Vec3, soft: Mat3, x: Vec3)
    requires GoodFit(fit, c, soft) && Quadric(fit.p, x) == 1.0
    ensures var z := Apply(soft, Sub(x, c));
      Dot(z, z) == SquaredRadius(Gain(fit.scale),
        Level(fit.p, c) - Form(Residual(fit.v, fit.d), Sub(x, c)))
  {
    var q := QuadricMatrix(fit.p);
    QuadricPoint(fit.p, x);
    LevelIs(fit.p, c);
    hide Quadric, Level, Symmetric, Apply, Dot, Form, Sub, MatScale, Mul, MatSub, Conjugate, Residual, Off,
      Decomposes, QuadricMatrix, Scale, OnQuadric, Gain, SquaredRadius;
    QuadricSymmetric(fit.p);
    SoftSquared(q, fit.v, fit.d, fit.sq, fit.scale);
    MapsToSphere(q, QuadricVector(fit.p), c, soft, Residual(fit.v, fit.d), Gain(fit.scale), x);
  }

  /** ... which is at most the spread times the squared distance, and the spread
      is what the sweeps leave of any input. */
  lemma FitSphereError(fit: Fit, c: Vec3, soft: Mat3, x: Vec3)
    requires GoodFit(fit, c, soft) && Quadric(fit.p, x) == 1.0
    ensures var y := Sub(x, c); var z := Apply(soft, y);
      Abs(Dot(z, z) - SquaredRadius(Gain(fit.scale), Level(fit.p, c))) <=
      SquaredRadius(Gain(fit.scale), Allowance(fit.d, y))
    ensures SquaredSpread(fit.d) <= 1e-24 + 1.8e-29 * MixedSize(fit.p)
  {
    var q := QuadricMatrix(fit.p);
    var y := Sub(x, c);
    SplitsSettle(q, fit.v, fit.d);
    MixedIsOff(fit.p);
    hide Quadric, Level, MixedSize, Symmetric, Apply, Dot, Form, Sub, MatScale, Conjugate, Residual, Off,
      Decomposes, QuadricMatrix, Scale, OnQuadric, Rooted, IsCentre, Gain, Abs, SquaredRadius, Allowance,
      Spread, Converged, SquaredSpread;
    FitMapsToSphere(fit, c, soft, x);
    ResidualBound(q, fit.v, fit.d, y);
    GainPositive(fit.scale);
    ScaledError(Gain(fit.scale), Level(fit.p, c), Form(Residual(fit.v, fit.d), y), Allowance(fit.d, y));
  }

  /** So every point of a fitted quadric of moderate size lands within one part in
      10^12, of its squared distance from the centre, of one sphere. */
  lemma FitWithinTolerance(fit: Fit, c: Vec3, soft: Mat3, x: Vec3)
    requires GoodFit(fit, c, soft) && Quadric(fit.p, x) == 1.0
    requires MixedSize(fit.p) <= 50000.0
    ensures var y := Sub(x, c); var z := Apply(soft, y);
      Abs(Dot(z, z) - SquaredRadius(Gain(fit.scale), Level(fit.p, c))) <=
      SquaredRadius(Gain(fit.scale), 1e-12 * Dot(y, y))
  {
    var y := Sub(x, c);
    MixedIsOff(fit.p);
    hide Quadric, Level, MixedSize, Apply, Dot, Form, Sub, MatScale, Conjugate, Off, Splits, QuadricMatrix,
      OnQuadric, Rooted, IsCentre, Gain, Abs, Spread, Allowance, SquaredRadius;
    FitSphereError(fit, c, soft, x);
    SplitsSettle(QuadricMatrix(fit.p), fit.v, fit.d);
    AllowanceBelow(fit.d, y, fit.scale);
  }

  lemma AllowanceBelow(d: Mat3, y: Vec3, k: real)
    requires Spread(d) < TOL
    ensures SquaredRadius(Gain(k), Allowance(d, y)) <= SquaredRadius(Gain(k), TOL * Dot(y, y))
  {
    NonNegativeSquare(y.x);
    NonNegativeSquare(y.y);
    NonNegativeSquare(y.z);
    GainPositive(k);
    hide Spread, Gain;
    Times(Spread(d), TOL, Dot(y, y));
    Times(Allowance(d, y), TOL * Dot(y, y), Gain(k));
  }

  // ----- the volume

  lemma OrthogonalDet(v: Mat3)
    requires Orthogonal(v)
    ensures Det(v) * Det(v) == 1.0
  {
    hide Det, Mul, Transpose;
    DetMul(v, Transpose(v));
    DetTranspose(v);
    DetDiag(Vec3(1.0, 1.0, 1.0));
  }

  lemma ConjugateDet(v: Mat3, s: Vec3)
    requires Orthogonal(v)
    ensures Det(Conjugate(v, s)) == s.x * s.y * s.z
  {
    OrthogonalDet(v);
    hide Det, Mul, Transpose, Orthogonal;
    DetMul(Mul(v, Diag(s)), Transpose(v));
    DetMul(v, Diag(s));
    DetTranspose(v);
    DetDiag(s);
    var d, p := Det(v), s.x * s.y * s.z;
    assert d * p * d == d * d * p;
  }

  /** Positive numbers with equal squares are equal. */
  lemma SameRoot(a: real, b: real)
    requires a > 0.0 && b > 0.0 && a * a == b * b
    ensures a == b
  {
    assert (a - b) * (a + b) == 0.0;
  }

  lemma RootIsProduct(w: Vec3, s: Vec3, root: real)
    requires s.x > 0.0 && s.y > 0.0 && s.z > 0.0
    requires s.x * s.x == w.x && s.y * s.y == w.y && s.z * s.z == w.z
    requires root > 0.0 && root * root == w.x * w.y * w.z
    ensures root == s.x * s.y * s.z
  {
    Positive(s.x, s.y);
    Positive(s.x * s.y, s.z);
    assert s.x * s.y * s.z * (s.x * s.y * s.z) == s.x * s.x * (s.y * s.y) * (s.z * s.z);
    SameRoot(root, s.x * s.y * s.z);
  }

  /** The volume a scaled root of a matrix gives the unit cube. */
  function Volume(scale: real, root: real): real {
    scale * scale * scale * root
  }

  lemma ScaledVolume(root: real, scale: real)
    requires root > 0.0 && scale > 0.0 && CubeRoot.Within(root, 1.0 / scale, CubeRoot.TOLERANCE)
    ensures Volume(scale, root) <= 1.0 <= Volume(scale, root) * (1.0 + CubeRoot.TOLERANCE)
  {
    var c, k := 1.0 / scale, scale * scale * scale;
    Positive(scale, scale);
    Positive(scale * scale, scale);
    assert k * CubeRoot.Cube(c) == scale * c * (scale * c) * (scale * c);
    Times(root, CubeRoot.Cube(c), k);
    Times(CubeRoot.Cube(c), root * (1.0 + CubeRoot.TOLERANCE), k);
  }

  lemma SoftDet(fit: Fit, c: Vec3, soft: Mat3)
    requires GoodFit(fit, c, soft)
    ensures Det(soft) == Volume(fit.scale, fit.root)
  {
    var w := Diagonal(fit.d);
    hide Det, MatScale, Conjugate, Mul, Transpose, QuadricMatrix, Symmetric, CubeRoot.Within, Off, IsCentre, Diagonal,
      Converged;
    ConjugateDet(fit.v, fit.sq);
    DetScale(fit.scale, Conjugate(fit.v, fit.sq));
    RootIsProduct(w, fit.sq, fit.root);
  }

  /** The shape matrix preserves volume: it never enlarges, and shrinks by no more
      than the cube root's tolerance. */
  lemma FitKeepsVolume(fit: Fit, c: Vec3, soft: Mat3)
    requires GoodFit(fit, c, soft)
    ensures Det(soft) <= 1.0 <= Det(soft) * (1.0 + 3e-384)
  {
    SoftDet(fit, c, soft);
    hide Det, Volume, Splits, MatScale, Conjugate, IsCentre, QuadricMatrix, CubeRoot.Within;
    ScaledVolume(fit.root, fit.scale);
  }

  // ----- the radius

  /** The points at a semi-axis from the centre, along an eigenvector estimate, are
      on the quadric: the square of the semi-axis is the quadric's level over the
      estimate. */
  lemma AxisOnQuadric(fit: Fit, c: Vec3, soft: Mat3, i: nat, t: real)
    requires GoodFit(fit, c, soft) && i < 3
    requires SquaredRadius(Gain(t), fit.d.At(i, i)) == Level(fit.p, c)
    ensures Quadric(fit.p, Add(c, Scale(t, Apply(fit.v, ID.Row(i))))) == 1.0
  {
    var q, e := QuadricMatrix(fit.p), ID.Row(i);
    var y := Scale(t, Apply(fit.v, e));
    var x := Add(c, y);
    assert Sub(x, c) == y;
    QuadricIs(fit.p, x);
    LevelIs(fit.p, c);
    hide Quadric, Level, QuadricVector, Apply, Mul, Transpose, Dot, Form, QuadricMatrix, Add, Sub, Scale,
      Rooted, Off, Converged, Mat3.At, Mat3.Row, Symmetric, Gain, SquaredRadius;
    QuadricSymmetric(fit.p);
    Centred(q, QuadricVector(fit.p), c, x);
    AxisForm(q, fit.v, fit.d, i, t);
  }

  lemma AxisForm(q: Mat3, v: Mat3, d: Mat3, i: nat, t: real)
    requires Decomposes(v, d, q) && i < 3
    ensures Form(q, Scale(t, Apply(v, ID.Row(i)))) == SquaredRadius(Gain(t), d.At(i, i))
  {
    var e := ID.Row(i);
    var y := Apply(v, e);
    hide Apply, Mul, Transpose, Dot, Mat3.At, Mat3.Row, Symmetric, Form, Gain, SquaredRadius, Scale;
    UnitForm(d, i);
    ApplyMul(Transpose(v), v, e);
    ApplyId(e);
    ConjugateForm(v, d, y);
    FormScale(q, t, y);
  }

  lemma FormScale(q: Mat3, t: real, y: Vec3)
    ensures Form(q, Scale(t, y)) == SquaredRadius(Gain(t), Form(q, y))
  {
    hide Dot, Apply, Scale;
    ApplyScaled(q, t, y);
    DotScale(t, y, Scale(t, Apply(q, y)));
    DotScale(t, y, Apply(q, y));
  }

  lemma ApplyScaled(m: Mat3, k: real, v: Vec3)
    ensures Apply(m, Scale(k, v)) == Scale(k, Apply(m, v))
  {
    var w := Apply(m, v);
    hide Dot, Scale;
    ScaledEntry(k, m.r0, v, w.x);
    ScaledEntry(k, m.r1, v, w.y);
    ScaledEntry(k, m.r2, v, w.z);
    ScaleParts(k, w);
  }

  lemma ScaledEntry(k: real, a: Vec3, v: Vec3, d: real)
    requires d == Dot(a, v)
    ensures Dot(a, Scale(k, v)) == k * d
  {
    hide Dot, Scale;
    DotScale(k, a, v);
  }

  /** The product of the squared semi-axes of the quadric at level `m`. */
  function SquaredAxes(w: Vec3, m: real): real
    requires w.x != 0.0 && w.y != 0.0 && w.z != 0.0
  {
    m / w.x * (m / w.y) * (m / w.z)
  }

  /** The radius is the geometric mean of the semi-axes: the cube of its square is
      the product of their squares, up to the square of the volume factor, which
      is one within the cube root's tolerance. */
  lemma FitRadius(fit: Fit, c: Vec3, soft: Mat3)
    requires GoodFit(fit, c, soft)
    ensures var w := Diagonal(fit.d); w.x > 0.0 && w.y > 0.0 && w.z > 0.0
    ensures var m := Level(fit.p, c);
      CubeRoot.Cube(SquaredRadius(Gain(fit.scale), m)) ==
      SquaredRadius(Gain(Det(soft)), SquaredAxes(Diagonal(fit.d), m))
  {
    SoftDet(fit, c, soft);
    hide Det, Splits, Form, QuadricMatrix, MatScale, Conjugate, IsCentre, Diagonal, RootsOf, CubeRoot.Cube, Gain,
      SquaredRadius, SquaredAxes, Volume;
    RadiusCubed(Diagonal(fit.d), fit.sq, fit.root, fit.scale, Level(fit.p, c));
  }

  lemma RadiusCubed(w: Vec3, sq: Vec3, root: real, k: real, m: real)
    requires RootsOf(w, sq, root, k)
    ensures w.x > 0.0 && w.y > 0.0 && w.z > 0.0
    ensures CubeRoot.Cube(SquaredRadius(Gain(k), m)) == SquaredRadius(Gain(Volume(k, root)), SquaredAxes(w, m))
  {
    Positive(sq.x, sq.x);
    Positive(sq.y, sq.y);
    Positive(sq.z, sq.z);
    CubedLevel(w.x, w.y, w.z, m, root * root);
    SixthPower(k, root, m, SquaredAxes(w, m));
  }

  lemma CubedLevel(a: real, b: real, c: real, m: real, v: real)
    requires a > 0.0 && b > 0.0 && c > 0.0 && v == a * b * c
    ensures v * (m / a * (m / b) * (m / c)) == m * m * m
  {
    var p, q, r := m / a, m / b, m / c;
    assert p * a == m && q * b == m && r * c == m;
    assert a * b * c * (p * q * r) == p * a * (q * b) * (r * c);
  }

  lemma SixthPower(k: real, root: real, m: real, axes: real)
    requires root * root * axes == m * m * m
    ensures CubeRoot.Cube(SquaredRadius(Gain(k), m)) == SquaredRadius(Gain(Volume(k, root)), axes)
  {
    var k3 := k * k * k;
    assert k3 * root * (k3 * root) * axes == k3 * k3 * (root * root * axes);
    assert k * k * m * (k * k * m) * (k * k * m) == k3 * k3 * (m * m * m);
  }

  lemma GainPositive(k: real)
    ensures Gain(k) >= 0.0
  {}

  lemma ScaledError(h: real, m: real, r: real, b: real)
    requires h >= 0.0 && Abs(r) <= b
    ensures Abs(SquaredRadius(h, m - r) - SquaredRadius(h, m)) <= SquaredRadius(h, b)
  {
    assert h * (m - r) - h * m == h * (-r);
    Times(-r, b, h);
    Times(r, b, h);
    assert h * (-r) == -(h * r);
  }

  // ----- the in-place form

  ghost function ToVec(a: array<real>): Vec3
    reads a
    requires a.Length == 3
  {
    Vec3(a[0], a[1], a[2])
  }

  function Term(a: real, w: real, b: real): real {
    a * w * b
  }

  function Weighted(a: Vec3, w: Vec3, b: Vec3): real {
    Term(a.x, w.x, b.x) + Term(a.y, w.y, b.y) + Term(a.z, w.z, b.z)
  }

  lemma TermIs(a: real, w: real, b: real)
    ensures a * w * b == Term(a, w, b)
  {}

  /** One entry of V diag(sq) V^T, accumulated. */
  method WeightedDot(v: array2<real>, sq: array<real>, i: nat, j: nat) returns (acc: real)
    requires v.Length0 == v.Length1 == 3 && sq.Length == 3 && i < 3 && j < 3
    ensures acc == Weighted(ToMat(v).Row(i), ToVec(sq), ToMat(v).Row(j))
  {
    hide Term;
    ghost var a, b, w := ToMat(v).Row(i), ToMat(v).Row(j), ToVec(sq);
    assert a == Vec3(v[i, 0], v[i, 1], v[i, 2]);
    assert b == Vec3(v[j, 0], v[j, 1], v[j, 2]);
    acc := 0.0;
    for k := 0 to 3
      invariant k == 0 ==> acc == 0.0
      invariant k == 1 ==> acc == Term(a.x, w.x, b.x)
      invariant k == 2 ==> acc == Term(a.x, w.x, b.x) + Term(a.y, w.y, b.y)
      invariant k == 3 ==> acc == Weighted(a, w, b)
    {
      TermIs(v[i, k], sq[k], v[j, k]);
      acc := acc + v[i, k] * sq[k] * v[j, k];
    }
  }

  lemma ConjugateEntry(v: Mat3, s: Vec3, i: nat, j: nat)
    requires i < 3 && j < 3
    ensures Conjugate(v, s).At(i, j) == Weighted(v.Row(i), s, v.Row(j))
  {
    var a := v.Row(i);
    assert RowTimes(a, Diag(s)) == Vec3(a.x * s.x, a.y * s.y, a.z * s.z);
    assert Transpose(v).Col(j) == v.Row(j);
    assert Mul(v, Diag(s)).Row(i) == RowTimes(a, Diag(s));
    hide Dot, Diag;
    assert Conjugate(v, s).Row(i) == RowTimes(Mul(v, Diag(s)).Row(i), Transpose(v));
    assert Conjugate(v, s).At(i, j) == Dot(RowTimes(a, Diag(s)), v.Row(j));
    DotWeighted(a, s, v.Row(j));
  }

  lemma DotWeighted(a: Vec3, s: Vec3, b: Vec3)
    ensures Dot(Vec3(a.x * s.x, a.y * s.y, a.z * s.z), b) == Weighted(a, s, b)
  {}

  /** A scaled entry. */
  function Grown(k: real, x: real): real {
    k * x
  }

  lemma GrownIs(k: real, x: real)
    ensures k * x == Grown(k, x)
  {}

  method BuildSoft(v: array2<real>, sq: array<real>, scale: real, soft: array2<real>)
    requires v.Length0 == v.Length1 == soft.Length0 == soft.Length1 == 3 && sq.Length == 3 && v != soft
    modifies soft
    ensures ToMat(soft) == MatScale(scale, Conjugate(ToMat(v), ToVec(sq)))
  {
    hide Weighted, Conjugate, Mat3.At, Mat3.Row, Grown, MatScale;
    ghost var k := Conjugate(ToMat(v), ToVec(sq));
    for i := 0 to 3
      invariant forall a: nat, b: nat :: a < i && b < 3 ==> soft[a, b] == Grown(scale, k.At(a, b))
    {
      for j := 0 to 3
        invariant forall a: nat, b: nat :: a < i && b < 3 ==> soft[a, b] == Grown(scale, k.At(a, b))
        invariant forall b: nat :: b < j ==> soft[i, b] == Grown(scale, k.At(i, b))
      {
        var acc := WeightedDot(v, sq, i, j);
        ConjugateEntry(ToMat(v), ToVec(sq), i, j);
        GrownIs(scale, acc);
        soft[i, j] := scale * acc;
      }
    }
    ScaledEntries(scale, k, ToMat(soft));
  }

  lemma ScaledEntries(s: real, k: Mat3, m: Mat3)
    requires m.r0 == Vec3(Grown(s, k.At(0, 0)), Grown(s, k.At(0, 1)), Grown(s, k.At(0, 2)))
    requires m.r1 == Vec3(Grown(s, k.At(1, 0)), Grown(s, k.At(1, 1)), Grown(s, k.At(1, 2)))
    requires m.r2 == Vec3(Grown(s, k.At(2, 0)), Grown(s, k.At(2, 1)), Grown(s, k.At(2, 2)))
    ensures m == MatScale(s, k)
  {}

  // ----- the stages of the fit

  lemma ApplyNegated(m: Mat3, v: Vec3)
    ensures Apply(m, Scale(-1.0, v)) == Scale(-1.0, Apply(m, v))
  {}

  lemma CentreSolves(p: seq<real>)
    requires |p| == 9 && Inv3x3(QuadricMatrix(p)).Inverse?
    ensures IsCentre(p, Scale(-1.0, Apply(Inv3x3(QuadricMatrix(p)).m, QuadricVector(p))))
  {
    var q, u := QuadricMatrix(p), QuadricVector(p);
    hide QuadricMatrix, QuadricVector, Inv3x3, Apply, Scale, Mul;
    var qinv := Inv3x3(q).m;
    InverseUndoes(q);
    ApplyNegated(q, Apply(qinv, u));
    ApplyMul(q, qinv, u);
    ApplyId(u);
  }

  method StoreCentre(p: array<real>, qinv: Mat3, offset: array<real>)
    requires p.Length == 9 && offset.Length == 3 && p != offset
    modifies offset
    ensures ToVec(offset) == Scale(-1.0, Apply(qinv, QuadricVector(p[..])))
  {
    var u := Vec3(p[6], p[7], p[8]);
    offset[0] := -Dot(qinv.r0, u);
    offset[1] := -Dot(qinv.r1, u);
    offset[2] := -Dot(qinv.r2, u);
  }

  method LoadQuadric(p: array<real>) returns (q: array2<real>)
    requires p.Length == 9
    ensures fresh(q) && q.Length0 == q.Length1 == 3 && ToMat(q) == QuadricMatrix(p[..])
  {
    q := new real[3, 3];
    q[0, 0], q[0, 1], q[0, 2] := p[0], p[5], p[4];
    q[1, 0], q[1, 1], q[1, 2] := p[5], p[1], p[3];
    q[2, 0], q[2, 1], q[2, 2] := p[4], p[3], p[2];
  }

  lemma PositiveRoot(x: real, r: real)
    requires x > 0.0 && r >= 0.0 && r * r == x
    ensures r > 0.0
  {
    assert r != 0.0;
  }

  lemma RootOf(sqrt: real -> real, x: real)
    requires IsSqrt(sqrt) && x > 0.0
    ensures sqrt(x) > 0.0 && sqrt(x) * sqrt(x) == x
  {
    PositiveRoot(x, sqrt(x));
  }

  lemma PositiveProduct(a: real, b: real, c: real)
    requires a > 0.0 && b > 0.0 && c > 0.0
    ensures a * b * c > 0.0
  {
    Positive(a, b);
    Positive(a * b, c);
  }

  /** The square roots of the estimates, and the volume-preserving scale. */
  method Roots(w: array<real>, sqrt: real -> real) returns (sq: array<real>, scale: real, ghost root: real)
    requires w.Length == 3 && IsSqrt(sqrt) && w[0] > 0.0 && w[1] > 0.0 && w[2] > 0.0
    ensures fresh(sq) && sq.Length == 3
    ensures RootsOf(ToVec(w), ToVec(sq), root, scale)
  {
    sq := new real[3];
    sq[0], sq[1], sq[2] := sqrt(w[0]), sqrt(w[1]), sqrt(w[2]);
    RootOf(sqrt, w[0]);
    RootOf(sqrt, w[1]);
    RootOf(sqrt, w[2]);
    var detQ := w[0] * w[1] * w[2];
    PositiveProduct(w[0], w[1], w[2]);
    root := sqrt(detQ);
    RootOf(sqrt, detQ);
    hide IsSqrt;
    var c := CubeRoot.CbrtPos(sqrt(detQ));
    scale := 1.0 / c;
    DoubleReciprocal(c);
  }

  lemma DoubleReciprocal(c: real)
    requires c > 0.0
    ensures 1.0 / c > 0.0 && 1.0 / (1.0 / c) == c
  {
    var r := 1.0 / c;
    assert r * c == 1.0;
    assert r > 0.0;
    assert 1.0 / r * r == 1.0;
    assert (1.0 / r - c) * r == 0.0;
  }

  lemma SomeEstimate(q: Mat3, v: Mat3, d: Mat3)
    requires Splits(q, v, d) && (d.r0.x <= 0.0 || d.r1.y <= 0.0 || d.r2.z <= 0.0)
    ensures !PositiveDefinite(q)
  {
    hide Decomposes, PositiveDefinite;
    if d.r0.x <= 0.0 {
      NotPositive(q, v, d, 0);
    } else if d.r1.y <= 0.0 {
      NotPositive(q, v, d, 1);
    } else {
      NotPositive(q, v, d, 2);
    }
  }

  ghost predicate Solution(s: LinearSystem.System, p: seq<real>) {
    |p| == 9 && LinearSystem.UniquelySolves(s, p)
  }

  /** The second half of the fit: split, take roots, rebuild. */
  method Shape(p: array<real>, soft: array2<real>, sqrt: real -> real)
    returns (ok: bool, ghost fit: Fit)
    requires p.Length == 9 && soft.Length0 == soft.Length1 == 3 && IsSqrt(sqrt)
    modifies soft
    ensures fit.p == p[..]
    ensures !ok ==> !PositiveDefinite(QuadricMatrix(p[..])) && ToMat(soft) == old(ToMat(soft))
    ensures ok ==> Splits(QuadricMatrix(p[..]), fit.v, fit.d) && Rooted(fit)
    ensures ok ==> ToMat(soft) == MatScale(fit.scale, Conjugate(fit.v, fit.sq))
  {
    hide Splits, MatScale, Conjugate, PositiveDefinite, QuadricMatrix, Symmetric, RootsOf, Spread;
    var q := LoadQuadric(p);
    QuadricSymmetric(p[..]);
    var w := new real[3];
    var v := new real[3, 3];
    ghost var d;
    d := Eig3(q, w, v, sqrt);
    ghost var none := Vec3(0.0, 0.0, 0.0);
    fit := Fit(p[..], ToMat(v), d, none, 0.0, 0.0);
    if w[0] <= 0.0 || w[1] <= 0.0 || w[2] <= 0.0 {
      SomeEstimate(ToMat(q), ToMat(v), d);
      return false, fit;
    }
    ghost var root;
    var sq, scale;
    sq, scale, root := Roots(w, sqrt);
    fit := Fit(p[..], ToMat(v), d, ToVec(sq), root, scale);
    BuildSoft(v, sq, scale, soft);
    return true, fit;
  }

  /** The ellipsoid fit.  A successful fit is a good one for the unique solution
      of the normal equations; each failure says what was wrong.  The offset is
      overwritten as soon as the centre is known, so it is changed even when the
      quadric then turns out not to be an ellipsoid; the shape matrix changes
      only on success. */
  method FitEllipsoid(s: array2<real>, t: array<real>, offset: array<real>, soft: array2<real>, sqrt: real -> real)
    returns (outcome: Outcome, ghost fit: Fit)
    requires s.Length0 == s.Length1 == t.Length == 9 && offset.Length == 3
    requires soft.Length0 == soft.Length1 == 3 && IsSqrt(sqrt)
    modifies s, t, offset, soft
    ensures outcome.NoPivot? ==>
      LinearSystem.NearlySingular(old(GaussJordan.View(s, t)), 9, 1e-12)
    ensures outcome.NoPivot? || outcome.NoCentre? ==> ToVec(offset) == old(ToVec(offset))
    ensures !outcome.Fitted? ==> ToMat(soft) == old(ToMat(soft))
    ensures !outcome.NoPivot? ==> Solution(old(GaussJordan.View(s, t)), fit.p)
    ensures outcome.NoCentre? ==> Abs(Det(QuadricMatrix(fit.p))) < 1e-20
    ensures outcome.NotEllipsoid? ==> IsCentre(fit.p, ToVec(offset)) && !PositiveDefinite(QuadricMatrix(fit.p))
    ensures outcome.Fitted? ==> GoodFit(fit, ToVec(offset), ToMat(soft))
  {
    hide Splits, MatScale, Conjugate, PositiveDefinite, QuadricMatrix, QuadricVector, IsCentre, Rooted, Spread,
      LinearSystem.UniquelySolves, LinearSystem.NearlySingular, Det, Adjugate;
    var p := new real[9];
    ghost var given := GaussJordan.View(s, t);
    ghost var zero := Vec3(0.0, 0.0, 0.0);
    var solved := GaussJordan.Solve(s, t, p);
    fit := Fit(p[..], ID, ID, zero, 0.0, 0.0);
    if !solved {
      return NoPivot, fit;
    }
    var inv := Inv3x3(QuadricMatrix(p[..]));
    if inv.Singular? {
      return NoCentre, fit;
    }
    CentreSolves(p[..]);
    StoreCentre(p, inv.m, offset);
    var ok;
    ok, fit := Shape(p, soft, sqrt);
    outcome := if ok then Fitted else NotEllipsoid;
  }
}
