/**
  Points of the curve -x^2 + y^2 = 1 + D x^2 y^2 modulo P in the coordinate systems of the source,
  and the addition formulas between them.
*/
module Points {
  import opened Bits
  import opened Field
  import opened FieldOps
  import Groups
  import Words

  /** The curve constant -121665 / 121666 and the limbs of 2 D. */
  const D := 37095705934669439343138083508754565189542113879843219016388785533085940283555
  const D2 := [-21827239, -5839606, -30745221, 13898782, 229458, 15978800, -12551817, -6495438, 29715968, 9444199]

  lemma CurveConstants()
    ensures Cong(D * 121666, -121665)
    ensures Cong(Val(D2), 2 * D) && Range(D2, 22)
  {
    CongShift(Val(D2), 2 * D, (2 * D - Val(D2)) / P);
  }

  // ---------------------------------------------------------------------------------------
  // Field operations on arrays that stand for known residues
  // ---------------------------------------------------------------------------------------

  /** a stands for v modulo P, with limbs within n/20 of 2^25 and 2^24. */
  ghost predicate Is(a: array<int>, n: nat, v: int)
    requires a.Length == 10
    reads a
  {
    Range(a[..], n) && Cong(Val(a[..]), v)
  }

  lemma CongAdd(a: int, b: int, c: int, d: int)
    requires Cong(a, c) && Cong(b, d)
    ensures Cong(a + b, c + d) && Cong(a - b, c - d)
  {
    var k, l := a / P - c / P, b / P - d / P;
    CongShift(a + b, c + d, -(k + l));
    CongShift(a - b, c - d, -(k - l));
  }

  /** A product, as a term that the point formulas carry along unexpanded. */
  function Times(u: int, v: int): int {
    u * v
  }

  lemma TwiceSquare(x: int, u: int)
    requires Cong(x, u)
    ensures Cong(2 * x * x, 2 * Times(u, u))
  {
    CongMul(x, x, u, u);
    var s, t := x * x, u * u;
    CongAdd(s, s, t, t);
    assert 2 * x * x == s + s;
  }

  method Add(dst: array<int>, a: array<int>, b: array<int>, ghost m: nat, ghost n: nat, ghost u: int, ghost v: int)
    requires dst.Length == a.Length == b.Length == 10
    requires Is(a, m, u) && Is(b, n, v) && m + n <= 66
    modifies dst
    ensures Is(dst, m + n, u + v)
  {
    hide Range;
    hide Val;
    hide Cong;
    CongAdd(Val(a[..]), Val(b[..]), u, v);
    FeAdd(dst, a, b, m, n);
  }

  method Sub(dst: array<int>, a: array<int>, b: array<int>, ghost m: nat, ghost n: nat, ghost u: int, ghost v: int)
    requires dst.Length == a.Length == b.Length == 10
    requires Is(a, m, u) && Is(b, n, v) && m + n <= 66
    modifies dst
    ensures Is(dst, m + n, u - v)
  {
    hide Range;
    hide Val;
    hide Cong;
    CongAdd(Val(a[..]), Val(b[..]), u, v);
    FeSub(dst, a, b, m, n);
  }

  method Mul(h: array<int>, f: array<int>, g: array<int>, ghost m: nat, ghost n: nat, ghost u: int, ghost v: int)
    requires h.Length == f.Length == g.Length == 10
    requires Is(f, m, u) && Is(g, n, v) && m <= 66 && n <= 66
    modifies h
    ensures Is(h, 22, Times(u, v))
  {
    CongMul(Val(f[..]), Val(g[..]), u, v);
    Wider(f[..], m, 66);
    Wider(g[..], n, 66);
    FeMul(h, f, g);
  }

  method Sqr(h: array<int>, f: array<int>, ghost m: nat, ghost u: int)
    requires h.Length == f.Length == 10 && Is(f, m, u) && m <= 66
    modifies h
    ensures Is(h, 22, Times(u, u))
  {
    CongMul(Val(f[..]), Val(f[..]), u, u);
    Wider(f[..], m, 66);
    FeSquare(h, f);
  }

  method Sqr2(h: array<int>, f: array<int>, ghost m: nat, ghost u: int)
    requires h.Length == f.Length == 10 && Is(f, m, u) && m <= 66
    modifies h
    ensures Is(h, 22, 2 * Times(u, u))
  {
    TwiceSquare(Val(f[..]), u);
    Wider(f[..], m, 66);
    FeSquare2(h, f);
  }

  method Copy(h: array<int>, f: array<int>, ghost m: nat, ghost u: int)
    requires h.Length == f.Length == 10 && Is(f, m, u)
    modifies h
    ensures Is(h, m, u)
  {
    FeCopy(h, f);
  }

  method Neg(h: array<int>, f: array<int>, ghost m: nat, ghost u: int)
    requires h.Length == f.Length == 10 && Is(f, m, u) && m <= 66
    modifies h
    ensures Is(h, m, -u)
  {
    hide Range;
    hide Val;
    hide Cong;
    CongAdd(0, Val(f[..]), 0, u);
    FeNeg(h, f, m);
  }

  method TwiceD() returns (d2: array<int>)
    ensures fresh(d2) && d2.Length == 10 && Is(d2, 22, 2 * D)
  {
    d2 := new int[10](i requires 0 <= i < 10 => D2[i]);
    CurveConstants();
    assert d2[..] == D2;
  }

  method SetZero(a: array<int>)
    requires a.Length == 10
    modifies a
    ensures Is(a, 22, 0)
  {
    FeZero(a);
    Wider(a[..], 0, 22);
  }

  method SetOne(a: array<int>)
    requires a.Length == 10
    modifies a
    ensures Is(a, 22, 1)
  {
    FeOne(a);
    Wider(a[..], 1, 22);
  }

  lemma Becomes(a: array<int>, m: nat, u: int, w: int)
    requires a.Length == 10 && m <= 66 && Is(a, m, u) && u == w
    ensures Is(a, 66, w)
  {
    Wider(a[..], m, 66);
  }

  // ---------------------------------------------------------------------------------------
  // Representations
  // ---------------------------------------------------------------------------------------

  /** Coordinates as integers: projective ones are (X : Y : Z), completed ones ((X : Z), (Y : T)). */
  datatype Point = Point(X: int, Y: int, Z: int, T: int)

  class ProjectiveGroupElement {
    const X: array<int>
    const Y: array<int>
    const Z: array<int>

    constructor ()
      ensures Shape() && fresh(X) && fresh(Y) && fresh(Z)
    {
      X := new int[10];
      Y := new int[10];
      Z := new int[10];
    }

    ghost predicate Shape() {
      X.Length == Y.Length == Z.Length == 10 && X != Y && X != Z && Y != Z
    }

    ghost predicate Outside(a: array<int>) {
      a != X && a != Y && a != Z
    }

    /** The limbs are as FeMul leaves them, and they stand for the coordinates of v. */
    ghost predicate Holds(v: Point)
      requires Shape()
      reads X, Y, Z
    {
      Is(X, 22, v.X) && Is(Y, 22, v.Y) && Is(Z, 22, v.Z)
    }

    /** The neutral point. */
    method Zero()
      requires Shape()
      modifies X, Y, Z
      ensures Holds(Point(0, 1, 1, 0))
    {
      SetZero(X);
      SetOne(Y);
      SetOne(Z);
    }

    /** The five squares, in r.X, r.Z, r.T and t0. */
    method Squares(r: CompletedGroupElement, t0: array<int>, ghost v: Point)
      requires Shape() && Holds(v) && r.Shape() && t0.Length == 10 && Outside(t0) && r.Outside(t0)
      requires Outside(r.X) && Outside(r.Y) && Outside(r.Z) && Outside(r.T)
      modifies r.X, r.Y, r.Z, r.T, t0
      ensures Is(r.X, 22, Times(v.X, v.X)) && Is(r.Z, 22, Times(v.Y, v.Y)) && Is(r.T, 22, 2 * Times(v.Z, v.Z))
      ensures Is(t0, 22, Times(v.X + v.Y, v.X + v.Y))
    {
      hide Is;
      hide Times;
      Sqr(r.X, X, 22, v.X);
      Sqr(r.Z, Y, 22, v.Y);
      Sqr2(r.T, Z, 22, v.Z);
      Add(r.Y, X, Y, 22, 22, v.X, v.Y);
      Sqr(t0, r.Y, 44, v.X + v.Y);
    }

    method Double(r: CompletedGroupElement, ghost v: Point)
      requires Shape() && Holds(v) && r.Shape() && Outside(r.X) && Outside(r.Y) && Outside(r.Z) && Outside(r.T)
      modifies r.X, r.Y, r.Z, r.T
      ensures r.Holds(Doubled(v)) && (OnCurve(v) ==> IsSum(Doubled(v), v, v))
    {
      var t0 := new int[10];
      ghost var g := Doubled(v);
      FourSquares(v);
      if OnCurve(v) {
        DoubledIsSum(v);
      }
      hide Is;
      hide Times;
      hide Doubled;
      hide OnCurve;
      hide IsSum;
      Squares(r, t0, v);
      CombineSquares(r, t0, Times(v.X, v.X), Times(v.Y, v.Y), Times(v.Z, v.Z), Times(v.X + v.Y, v.X + v.Y), g);
    }
  }

  class ExtendedGroupElement {
    const X: array<int>
    const Y: array<int>
    const Z: array<int>
    const T: array<int>

    constructor ()
      ensures Shape() && fresh(X) && fresh(Y) && fresh(Z) && fresh(T)
    {
      X := new int[10];
      Y := new int[10];
      Z := new int[10];
      T := new int[10];
    }

    ghost predicate Shape() {
      && X.Length == Y.Length == Z.Length == T.Length == 10
      && X != Y && X != Z && X != T && Y != Z && Y != T && Z != T
    }

    ghost predicate Outside(a: array<int>) {
      a != X && a != Y && a != Z && a != T
    }

    ghost predicate Holds(v: Point)
      requires Shape()
      reads X, Y, Z, T
    {
      Is(X, 22, v.X) && Is(Y, 22, v.Y) && Is(Z, 22, v.Z) && Is(T, 22, v.T)
    }

    method Zero()
      requires Shape()
      modifies X, Y, Z, T
      ensures Holds(Point(0, 1, 1, 0)) && Extended(Point(0, 1, 1, 0))
    {
      SetZero(X);
      SetOne(Y);
      SetOne(Z);
      SetZero(T);
    }

    method Double(r: CompletedGroupElement, ghost v: Point)
      requires Shape() && Holds(v) && r.Shape() && Outside(r.X) && Outside(r.Y) && Outside(r.Z) && Outside(r.T)
      modifies r.X, r.Y, r.Z, r.T
      ensures r.Holds(Doubled(v)) && (OnCurve(v) ==> IsSum(Doubled(v), v, v))
    {
      var q := new ProjectiveGroupElement();
      ToProjective(q, v);
      q.Double(r, v);
    }

    method ToCached(r: CachedGroupElement, ghost v: Point)
      requires Shape() && Holds(v) && r.Shape() && Outside(r.yPlusX) && Outside(r.yMinusX) && Outside(r.Z) &&
        Outside(r.T2d)
      modifies r.yPlusX, r.yMinusX, r.Z, r.T2d
      ensures r.Holds(v)
    {
      var d2 := TwiceD();
      hide Is;
      hide Times;
      Add(r.yPlusX, Y, X, 22, 22, v.Y, v.X);
      Sub(r.yMinusX, Y, X, 22, 22, v.Y, v.X);
      Copy(r.Z, Z, 22, v.Z);
      Mul(r.T2d, T, d2, 22, 22, v.T, 2 * D);
    }

    method ToProjective(r: ProjectiveGroupElement, ghost v: Point)
      requires Shape() && Holds(v) && r.Shape() && Outside(r.X) && Outside(r.Y) && Outside(r.Z)
      modifies r.X, r.Y, r.Z
      ensures r.Holds(v)
    {
      hide Is;
      Copy(r.X, X, 22, v.X);
      Copy(r.Y, Y, 22, v.Y);
      Copy(r.Z, Z, 22, v.Z);
    }
  }

  class CompletedGroupElement {
    const X: array<int>
    const Y: array<int>
    const Z: array<int>
    const T: array<int>

    constructor ()
      ensures Shape() && fresh(X) && fresh(Y) && fresh(Z) && fresh(T)
    {
      X := new int[10];
      Y := new int[10];
      Z := new int[10];
      T := new int[10];
    }

    ghost predicate Shape() {
      && X.Length == Y.Length == Z.Length == T.Length == 10
      && X != Y && X != Z && X != T && Y != Z && Y != T && Z != T
    }

    ghost predicate Outside(a: array<int>) {
      a != X && a != Y && a != Z && a != T
    }

    /** Sums of up to three products: the widest limbs that FeMul accepts. */
    ghost predicate Holds(v: Point)
      requires Shape()
      reads X, Y, Z, T
    {
      Is(X, 66, v.X) && Is(Y, 66, v.Y) && Is(Z, 66, v.Z) && Is(T, 66, v.T)
    }

    method ToProjective(r: ProjectiveGroupElement, ghost v: Point)
      requires Shape() && Holds(v) && r.Shape() && Outside(r.X) && Outside(r.Y) && Outside(r.Z)
      modifies r.X, r.Y, r.Z
      ensures r.Holds(Joined(v)) && SamePoint(Joined(v), v)
    {
      hide Is;
      hide Times;
      Mul(r.X, X, T, 66, 66, v.X, v.T);
      Mul(r.Y, Y, Z, 66, 66, v.Y, v.Z);
      Mul(r.Z, Z, T, 66, 66, v.Z, v.T);
      JoinedIsExtended(v);
    }

    method ToExtended(r: ExtendedGroupElement, ghost v: Point)
      requires Shape() && Holds(v) && r.Shape() && Outside(r.X) && Outside(r.Y) && Outside(r.Z) && Outside(r.T)
      modifies r.X, r.Y, r.Z, r.T
      ensures r.Holds(Joined(v)) && Extended(Joined(v)) && SamePoint(Joined(v), v)
    {
      hide Is;
      hide Times;
      Mul(r.X, X, T, 66, 66, v.X, v.T);
      Mul(r.Y, Y, Z, 66, 66, v.Y, v.Z);
      Mul(r.Z, Z, T, 66, 66, v.Z, v.T);
      Mul(r.T, X, Y, 66, 66, v.X, v.Y);
      JoinedIsExtended(v);
    }
  }

  class CachedGroupElement {
    const yPlusX: array<int>
    const yMinusX: array<int>
    const Z: array<int>
    const T2d: array<int>

    constructor ()
      ensures Shape() && fresh(yPlusX) && fresh(yMinusX) && fresh(Z) && fresh(T2d)
    {
      yPlusX := new int[10];
      yMinusX := new int[10];
      Z := new int[10];
      T2d := new int[10];
    }

    ghost predicate Shape() {
      && yPlusX.Length == yMinusX.Length == Z.Length == T2d.Length == 10
      && yPlusX != yMinusX && yPlusX != Z && yPlusX != T2d && yMinusX != Z && yMinusX != T2d && Z != T2d
    }

    ghost predicate Outside(a: array<int>) {
      a != yPlusX && a != yMinusX && a != Z && a != T2d
    }

    /** What ToCached stores for the extended point v. */
    ghost predicate Holds(v: Point)
      requires Shape()
      reads yPlusX, yMinusX, Z, T2d
    {
      Is(yPlusX, 44, v.Y + v.X) && Is(yMinusX, 44, v.Y - v.X) && Is(Z, 22, v.Z) && Is(T2d, 22, Times(v.T, 2 * D))
    }
  }

  class PreComputedGroupElement {
    const yPlusX: array<int>
    const yMinusX: array<int>
    const xy2d: array<int>

    constructor ()
      ensures Shape() && fresh(yPlusX) && fresh(yMinusX) && fresh(xy2d)
    {
      yPlusX := new int[10];
      yMinusX := new int[10];
      xy2d := new int[10];
    }

    ghost predicate Shape() {
      yPlusX.Length == yMinusX.Length == xy2d.Length == 10 && yPlusX != yMinusX && yPlusX != xy2d && yMinusX != xy2d
    }

    ghost predicate Outside(a: array<int>) {
      a != yPlusX && a != yMinusX && a != xy2d
    }

    /** The affine point (x, y), as v with Z = 1. */
    ghost predicate Holds(v: Point)
      requires Shape()
      reads yPlusX, yMinusX, xy2d
    {
      Is(yPlusX, 22, v.Y + v.X) && Is(yMinusX, 22, v.Y - v.X) && Is(xy2d, 22, Times(v.T, 2 * D)) && v.Z == 1
    }

    method Zero()
      requires Shape()
      modifies yPlusX, yMinusX, xy2d
      ensures Holds(Point(0, 1, 1, 0))
    {
      SetOne(yPlusX);
      SetOne(yMinusX);
      SetZero(xy2d);
    }

    /** PreComputedGroupElementCMove: takes over u if b is 1. */
    method CMove(u: PreComputedGroupElement, b: int, ghost v: Point, ghost w: Point)
      requires Shape() && u.Shape() && Holds(v) && u.Holds(w) && (b == 0 || b == 1)
      requires u.Outside(yPlusX) && u.Outside(yMinusX) && u.Outside(xy2d)
      modifies yPlusX, yMinusX, xy2d
      ensures Holds(if b == 1 then w else v)
    {
      RangeIsInt32(yPlusX[..], 22);
      RangeIsInt32(yMinusX[..], 22);
      RangeIsInt32(xy2d[..], 22);
      RangeIsInt32(u.yPlusX[..], 22);
      RangeIsInt32(u.yMinusX[..], 22);
      RangeIsInt32(u.xy2d[..], 22);
      FeCMove(yPlusX, u.yPlusX, b);
      FeCMove(yMinusX, u.yMinusX, b);
      FeCMove(xy2d, u.xy2d, b);
    }

    /** The negated point: y + x and y - x change places, and 2 d x y its sign. */
    method Negate(minusT: PreComputedGroupElement, ghost v: Point)
      requires Shape() && minusT.Shape() && Holds(v)
      requires Outside(minusT.yPlusX) && Outside(minusT.yMinusX) && Outside(minusT.xy2d)
      modifies minusT.yPlusX, minusT.yMinusX, minusT.xy2d
      ensures minusT.Holds(Negated(v))
    {
      hide Is;
      Copy(minusT.yPlusX, yMinusX, 22, v.Y - v.X);
      Copy(minusT.yMinusX, yPlusX, 22, v.Y + v.X);
      Neg(minusT.xy2d, xy2d, 22, Times(v.T, 2 * D));
      assert -Times(v.T, 2 * D) == Times(-v.T, 2 * D);
    }
  }

  // ---------------------------------------------------------------------------------------
  // The addition law
  // ---------------------------------------------------------------------------------------

  /** XY = ZT, the invariant of extended coordinates. */
  predicate Extended(v: Point) {
    Cong(v.X * v.Y, v.Z * v.T)
  }

  function Negated(v: Point): Point {
    Point(-v.X, v.Y, v.Z, -v.T)
  }

  /** The squares that Double starts from make up Doubled(v). */
  lemma FourSquares(v: Point)
    ensures Times(v.X + v.Y, v.X + v.Y) - (Times(v.Y, v.Y) + Times(v.X, v.X)) == Doubled(v).X
    ensures Times(v.Y, v.Y) + Times(v.X, v.X) == Doubled(v).Y
    ensures Times(v.Y, v.Y) - Times(v.X, v.X) == Doubled(v).Z
    ensures 2 * Times(v.Z, v.Z) - (Times(v.Y, v.Y) - Times(v.X, v.X)) == Doubled(v).T
  {
    assert (v.X + v.Y) * (v.X + v.Y) == v.X * v.X + 2 * (v.X * v.Y) + v.Y * v.Y;
  }

  /** The curve equation in projective coordinates. */
  predicate OnCurve(v: Point) {
    Cong((v.Y * v.Y - v.X * v.X) * (v.Z * v.Z), (v.Z * v.Z) * (v.Z * v.Z) + D * ((v.X * v.X) * (v.Y * v.Y)))
  }

  /**
    Section 5.1.4 of RFC 8032, with the denominators multiplied out: the completed point r, whose x is r.X / r.Z and
    y is r.Y / r.T, is the sum of a and b.
  */
  predicate IsSum(r: Point, a: Point, b: Point) {
    && IsQuotient(r.X, r.Z, (a.X * b.Y + b.X * a.Y) * (a.Z * b.Z), Denominator(a, b, 1))
    && IsQuotient(r.Y, r.T, (a.Y * b.Y + a.X * b.X) * (a.Z * b.Z), Denominator(a, b, -1))
    && (HasDenominators(r, a, b, 1) || HasDenominators(r, a, b, 2))
  }

  /** The denominators of r are those of the law, up to k and the Z of both points: they are zero only with these. */
  predicate HasDenominators(r: Point, a: Point, b: Point, k: int) {
    Cong(r.Z * (a.Z * b.Z), k * Denominator(a, b, 1)) && Cong(r.T * (a.Z * b.Z), k * Denominator(a, b, -1))
  }

  /** u / v = n / d */
  predicate IsQuotient(u: int, v: int, n: int, d: int) {
    Cong(u * d, v * n)
  }

  /** (1 + sign D xx'yy') times the square of both Z. */
  function Denominator(a: Point, b: Point, sign: int): int {
    (a.Z * b.Z) * (a.Z * b.Z) + sign * (D * ((a.X * b.X) * (a.Y * b.Y)))
  }

  /** What the formulas compute from extended coordinates. */
  function Sum(a: Point, b: Point): Point {
    var zz, t := a.Z * b.Z, a.T * b.T;
    Point(2 * (a.X * b.Y + b.X * a.Y), 2 * (a.Y * b.Y + a.X * b.X), 2 * (zz + D * t), 2 * (zz - D * t))
  }

  function Doubled(a: Point): Point {
    var xx, yy, zz := a.X * a.X, a.Y * a.Y, a.Z * a.Z;
    Point(2 * (a.X * a.Y), yy + xx, yy - xx, 2 * zz - (yy - xx))
  }

  lemma {:induction false} CongScale(k: int, a: int, b: int)
    requires Cong(a, b)
    ensures Cong(k * a, k * b)
  {
    CongMul(k, a, k, b);
  }

  lemma Denominators(a: Point, b: Point)
    requires Extended(a) && Extended(b)
    ensures Cong(D * ((a.X * b.X) * (a.Y * b.Y)), D * ((a.Z * b.Z) * (a.T * b.T)))
  {
    CongMul(a.X * a.Y, b.X * b.Y, a.Z * a.T, b.Z * b.T);
    assert (a.X * b.X) * (a.Y * b.Y) == (a.X * a.Y) * (b.X * b.Y);
    assert (a.Z * b.Z) * (a.T * b.T) == (a.Z * a.T) * (b.Z * b.T);
    CongScale(D, (a.X * b.X) * (a.Y * b.Y), (a.Z * b.Z) * (a.T * b.T));
  }

  lemma SumIsSum(a: Point, b: Point)
    requires Extended(a) && Extended(b)
    ensures IsSum(Sum(a, b), a, b)
  {
    var zz, t := a.Z * b.Z, a.T * b.T;
    var dxy := D * ((a.X * b.X) * (a.Y * b.Y));
    var x, y := a.X * b.Y + b.X * a.Y, a.Y * b.Y + a.X * b.X;
    Denominators(a, b);
    CongAdd(zz * zz, dxy, zz * zz, D * (zz * t));
    CongScale(2, zz * zz + dxy, zz * zz + D * (zz * t));
    CongScale(2, zz * zz - dxy, zz * zz - D * (zz * t));
    CongScale(2 * x, zz * zz + dxy, zz * zz + D * (zz * t));
    CongScale(2 * y, zz * zz - dxy, zz * zz - D * (zz * t));
    Rearranged(x, zz, D * t);
    Rearranged(y, zz, -(D * t));
    assert D * (zz * t) == zz * (D * t);
    assert zz * -(D * t) == -(zz * (D * t));
    assert (2 * (zz + D * t)) * zz == 2 * (zz * zz + zz * (D * t));
    assert (2 * (zz - D * t)) * zz == 2 * (zz * zz - zz * (D * t));
  }

  lemma Rearranged(x: int, zz: int, dt: int)
    ensures (2 * x) * (zz * zz + zz * dt) == (2 * (zz + dt)) * (x * zz)
  {
    assert zz * zz + zz * dt == zz * (zz + dt);
    Assoc(2 * x, zz, zz + dt);
    Assoc(2 * (zz + dt), x, zz);
  }

  /** Multiplying a congruence u z = v of the curve by w turns x w z into x v w. */
  lemma OneCoordinate(x: int, w: int, z: int, v: int)
    requires Cong(w * z, v)
    ensures Cong(x * v, w * (x * z))
  {
    CongScale(x, w * z, v);
    assert w * (x * z) == x * (w * z);
  }

  /** On the curve, doubling follows the same law. */
  lemma DoubledIsSum(a: Point)
    requires OnCurve(a)
    ensures IsSum(Doubled(a), a, a)
  {
    var xx, yy, zz := a.X * a.X, a.Y * a.Y, a.Z * a.Z;
    var dxy := D * (xx * yy);
    OneCoordinate(2 * (a.X * a.Y), yy - xx, zz, zz * zz + dxy);
    CongAdd(2 * (zz * zz), (yy - xx) * zz, 2 * (zz * zz), zz * zz + dxy);
    assert (2 * zz - (yy - xx)) * zz == 2 * (zz * zz) - (yy - xx) * zz;
    OneCoordinate(yy + xx, 2 * zz - (yy - xx), zz, zz * zz - dxy);
  }

  /** On the curve, what is the sum of a point and its negative has x 0 and y 1, with the denominators of the law. */
  lemma NegatedIsInverse(a: Point)
    requires OnCurve(a)
    ensures forall r: Point :: IsSum(r, a, Negated(a)) ==> IsNeutral(r, a)
  {
    hide Denominator;
    hide HasDenominators;
    NumeratorsOfNegated(a);
    var n := Negated(a);
    forall r: Point | IsSum(r, a, n) ensures IsNeutral(r, a) {
      CongScale(r.T, (a.Y * n.Y + a.X * n.X) * (a.Z * n.Z), Denominator(a, n, -1));
    }
  }

  ghost predicate IsNeutral(r: Point, a: Point) {
    && Cong(r.X * Denominator(a, Negated(a), 1), 0)
    && Cong(r.Y * Denominator(a, Negated(a), -1), r.T * Denominator(a, Negated(a), -1))
  }

  lemma NumeratorsOfNegated(a: Point)
    ensures
      var n, xx, yy, zz := Negated(a), a.X * a.X, a.Y * a.Y, a.Z * a.Z;
      && (a.X * n.Y + n.X * a.Y) * (a.Z * n.Z) == 0
      && (a.Y * n.Y + a.X * n.X) * (a.Z * n.Z) == (yy - xx) * zz
      && Denominator(a, n, -1) == zz * zz + D * (xx * yy)
  {
  }

  /** A completed point in extended coordinates. */
  function Joined(v: Point): Point {
    Point(Times(v.X, v.T), Times(v.Y, v.Z), Times(v.Z, v.T), Times(v.X, v.Y))
  }

  /**
    x and y of the extended point e and the completed point c agree, with denominators multiplied out, and e has a
    denominator if c has both.
  */
  predicate SamePoint(e: Point, c: Point) {
    Cong(e.X * c.Z, c.X * e.Z) && Cong(e.Y * c.T, c.Y * e.Z) && Cong(e.Z, c.Z * c.T)
  }

  lemma JoinedIsExtended(v: Point)
    ensures Extended(Joined(v)) && SamePoint(Joined(v), v)
  {
    assert (v.X * v.T) * (v.Y * v.Z) == (v.Z * v.T) * (v.X * v.Y);
    assert (v.X * v.T) * v.Z == v.X * (v.Z * v.T);
    assert (v.Y * v.Z) * v.T == v.Y * (v.Z * v.T);
  }

  // ---------------------------------------------------------------------------------------
  // Addition
  // ---------------------------------------------------------------------------------------

  /** The four products of the formulas for a + b make up Sum(a, b). */
  lemma FourProducts(a: Point, b: Point)
    ensures Times(a.Y + a.X, b.Y + b.X) - Times(a.Y - a.X, b.Y - b.X) == Sum(a, b).X
    ensures Times(a.Y + a.X, b.Y + b.X) + Times(a.Y - a.X, b.Y - b.X) == Sum(a, b).Y
    ensures 2 * Times(a.Z, b.Z) + Times(Times(b.T, 2 * D), a.T) == Sum(a, b).Z
    ensures 2 * Times(a.Z, b.Z) - Times(Times(b.T, 2 * D), a.T) == Sum(a, b).T
    ensures b.Z == 1 ==> Times(a.Z, b.Z) == a.Z
  {
    assert (a.Y + a.X) * (b.Y + b.X) == a.Y * b.Y + a.Y * b.X + a.X * b.Y + a.X * b.X;
    assert (a.Y - a.X) * (b.Y - b.X) == a.Y * b.Y - a.Y * b.X - a.X * b.Y + a.X * b.X;
    assert (b.T * (2 * D)) * a.T == 2 * (D * (a.T * b.T));
  }

  /** The same for a - b. */
  lemma FourProductsNegated(a: Point, b: Point)
    requires Extended(a) && Extended(b)
    ensures Times(a.Y + a.X, b.Y - b.X) - Times(a.Y - a.X, b.Y + b.X) == Sum(a, Negated(b)).X
    ensures Times(a.Y + a.X, b.Y - b.X) + Times(a.Y - a.X, b.Y + b.X) == Sum(a, Negated(b)).Y
    ensures 2 * Times(a.Z, b.Z) - Times(Times(b.T, 2 * D), a.T) == Sum(a, Negated(b)).Z
    ensures 2 * Times(a.Z, b.Z) + Times(Times(b.T, 2 * D), a.T) == Sum(a, Negated(b)).T
    ensures b.Z == 1 ==> Times(a.Z, b.Z) == a.Z
    ensures IsSum(Sum(a, Negated(b)), a, Negated(b))
  {
    var n := Negated(b);
    assert n.X * n.Y == -(b.X * b.Y);
    assert n.Z * n.T == -(b.Z * b.T);
    CongAdd(0, b.X * b.Y, 0, b.Z * b.T);
    SumIsSum(a, n);
    FourProducts(a, n);
    assert ((-b.T) * (2 * D)) * a.T == -((b.T * (2 * D)) * a.T);
    assert n.Y + n.X == b.Y - b.X && n.Y - n.X == b.Y + b.X;
  }

  /** The additions that end Double. */
  method CombineSquares(r: CompletedGroupElement, t0: array<int>, ghost xx: int, ghost yy: int, ghost zz: int,
      ghost square: int, ghost g: Point)
    requires r.Shape() && t0.Length == 10 && r.Outside(t0)
    requires Is(r.X, 22, xx) && Is(r.Z, 22, yy) && Is(r.T, 22, 2 * zz) && Is(t0, 22, square)
    requires g == Point(square - (yy + xx), yy + xx, yy - xx, 2 * zz - (yy - xx))
    modifies r.X, r.Y, r.Z, r.T
    ensures r.Holds(g)
  {
    hide Is;
    Add(r.Y, r.Z, r.X, 22, 22, yy, xx);
    Sub(r.Z, r.Z, r.X, 22, 22, yy, xx);
    Sub(r.X, t0, r.Y, 22, 44, square, yy + xx);
    Sub(r.T, r.T, r.Z, 22, 44, 2 * zz, yy - xx);
    Becomes(r.X, 66, square - (yy + xx), g.X);
    Becomes(r.Y, 44, yy + xx, g.Y);
    Becomes(r.Z, 44, yy - xx, g.Z);
    Becomes(r.T, 66, 2 * zz - (yy - xx), g.T);
  }

  /** The common opening of the four formulas: r.Z, r.Y and r.T are the products with the three entries of q. */
  method ThreeProducts(r: CompletedGroupElement, p: ExtendedGroupElement, plus: array<int>, minus: array<int>,
      t2d: array<int>, ghost v: Point, ghost n: nat, ghost a: int, ghost b: int, ghost c: int)
    requires r.Shape() && p.Shape() && plus.Length == minus.Length == t2d.Length == 10 && n <= 66
    requires p.Outside(r.X) && p.Outside(r.Y) && p.Outside(r.Z) && p.Outside(r.T)
    requires plus != r.X && plus != r.Y && plus != r.Z && plus != r.T
    requires minus != r.X && minus != r.Y && minus != r.Z && minus != r.T
    requires t2d != r.X && t2d != r.Y && t2d != r.Z && t2d != r.T
    requires p.Holds(v) && Is(plus, n, a) && Is(minus, n, b) && Is(t2d, 22, c)
    modifies r.X, r.Y, r.Z, r.T
    ensures Is(r.Z, 22, Times(v.Y + v.X, a)) && Is(r.Y, 22, Times(v.Y - v.X, b)) && Is(r.T, 22, Times(c, v.T))
  {
    hide Is;
    hide Times;
    Add(r.X, p.Y, p.X, 22, 22, v.Y, v.X);
    Sub(r.Y, p.Y, p.X, 22, 22, v.Y, v.X);
    Mul(r.Z, r.X, plus, 44, n, v.Y + v.X, a);
    Mul(r.Y, r.Y, minus, 44, n, v.Y - v.X, b);
    Mul(r.T, t2d, p.T, 22, 22, c, v.T);
  }

  method DifferenceAndSum(r: CompletedGroupElement, ghost plus: int, ghost minus: int, ghost x: int, ghost y: int)
    requires r.Shape() && Is(r.Z, 22, plus) && Is(r.Y, 22, minus) && x == plus - minus && y == plus + minus
    modifies r.X, r.Y
    ensures Is(r.X, 66, x) && Is(r.Y, 66, y)
  {
    hide Is;
    Sub(r.X, r.Z, r.Y, 22, 22, plus, minus);
    Add(r.Y, r.Z, r.Y, 22, 22, plus, minus);
    Becomes(r.X, 44, plus - minus, x);
    Becomes(r.Y, 44, plus + minus, y);
  }

  /** `r.Z = t0 + r.T` and `r.T = t0 - r.T`. */
  method SumAndDifference(r: CompletedGroupElement, t0: array<int>, ghost zz: int, ghost c: int, ghost z: int,
      ghost t: int)
    requires r.Shape() && t0.Length == 10 && r.Outside(t0)
    requires Is(t0, 44, zz) && Is(r.T, 22, c) && z == zz + c && t == zz - c
    modifies r.Z, r.T
    ensures Is(r.Z, 66, z) && Is(r.T, 66, t)
  {
    hide Is;
    Add(r.Z, t0, r.T, 44, 22, zz, c);
    Sub(r.T, t0, r.T, 44, 22, zz, c);
    Becomes(r.Z, 66, zz + c, z);
    Becomes(r.T, 66, zz - c, t);
  }

  /** `r.Z = t0 - r.T` and `r.T = t0 + r.T`. */
  method DifferenceThenSum(r: CompletedGroupElement, t0: array<int>, ghost zz: int, ghost c: int, ghost z: int,
      ghost t: int)
    requires r.Shape() && t0.Length == 10 && r.Outside(t0)
    requires Is(t0, 44, zz) && Is(r.T, 22, c) && z == zz - c && t == zz + c
    modifies r.Z, r.T
    ensures Is(r.Z, 66, z) && Is(r.T, 66, t)
  {
    hide Is;
    Sub(r.Z, t0, r.T, 44, 22, zz, c);
    Add(r.T, t0, r.T, 44, 22, zz, c);
    Becomes(r.Z, 66, zz - c, z);
    Becomes(r.T, 66, zz + c, t);
  }

  /** r = p + q, for p and q standing for v and w. */
  method GeAdd(r: CompletedGroupElement, p: ExtendedGroupElement, q: CachedGroupElement, ghost v: Point,
      ghost w: Point)
    requires r.Shape() && p.Shape() && q.Shape()
    requires p.Outside(r.X) && p.Outside(r.Y) && p.Outside(r.Z) && p.Outside(r.T)
    requires q.Outside(r.X) && q.Outside(r.Y) && q.Outside(r.Z) && q.Outside(r.T)
    requires p.Holds(v) && q.Holds(w) && Extended(v) && Extended(w)
    modifies r.X, r.Y, r.Z, r.T
    ensures r.Holds(Sum(v, w)) && IsSum(Sum(v, w), v, w)
  {
    hide Is;
    hide Times;
    hide Sum;
    hide IsSum;
    hide Extended;
    var t0 := new int[10];
    ghost var g := Sum(v, w);
    FourProducts(v, w);
    SumIsSum(v, w);
    ThreeProducts(r, p, q.yPlusX, q.yMinusX, q.T2d, v, 44, w.Y + w.X, w.Y - w.X, Times(w.T, 2 * D));
    Mul(r.X, p.Z, q.Z, 22, 22, v.Z, w.Z);
    Add(t0, r.X, r.X, 22, 22, Times(v.Z, w.Z), Times(v.Z, w.Z));
    ghost var zz, c := 2 * Times(v.Z, w.Z), Times(Times(w.T, 2 * D), v.T);
    DifferenceAndSum(r, Times(v.Y + v.X, w.Y + w.X), Times(v.Y - v.X, w.Y - w.X), g.X, g.Y);
    SumAndDifference(r, t0, zz, c, g.Z, g.T);
  }

  /** r = p - q, for p and q standing for v and w. */
  method GeSub(r: CompletedGroupElement, p: ExtendedGroupElement, q: CachedGroupElement, ghost v: Point,
      ghost w: Point)
    requires r.Shape() && p.Shape() && q.Shape()
    requires p.Outside(r.X) && p.Outside(r.Y) && p.Outside(r.Z) && p.Outside(r.T)
    requires q.Outside(r.X) && q.Outside(r.Y) && q.Outside(r.Z) && q.Outside(r.T)
    requires p.Holds(v) && q.Holds(w) && Extended(v) && Extended(w)
    modifies r.X, r.Y, r.Z, r.T
    ensures r.Holds(Sum(v, Negated(w))) && IsSum(Sum(v, Negated(w)), v, Negated(w))
  {
    hide Is;
    hide Times;
    hide Sum;
    hide IsSum;
    hide Extended;
    var t0 := new int[10];
    ghost var g := Sum(v, Negated(w));
    FourProductsNegated(v, w);
    ThreeProducts(r, p, q.yMinusX, q.yPlusX, q.T2d, v, 44, w.Y - w.X, w.Y + w.X, Times(w.T, 2 * D));
    Mul(r.X, p.Z, q.Z, 22, 22, v.Z, w.Z);
    Add(t0, r.X, r.X, 22, 22, Times(v.Z, w.Z), Times(v.Z, w.Z));
    ghost var zz, c := 2 * Times(v.Z, w.Z), Times(Times(w.T, 2 * D), v.T);
    DifferenceAndSum(r, Times(v.Y + v.X, w.Y - w.X), Times(v.Y - v.X, w.Y + w.X), g.X, g.Y);
    DifferenceThenSum(r, t0, zz, c, g.Z, g.T);
  }

  /** r = p + q, for p and q standing for v and w. */
  method GeMixedAdd(r: CompletedGroupElement, p: ExtendedGroupElement, q: PreComputedGroupElement, ghost v: Point,
      ghost w: Point)
    requires r.Shape() && p.Shape() && q.Shape()
    requires p.Outside(r.X) && p.Outside(r.Y) && p.Outside(r.Z) && p.Outside(r.T)
    requires q.Outside(r.X) && q.Outside(r.Y) && q.Outside(r.Z) && q.Outside(r.T)
    requires p.Holds(v) && q.Holds(w) && Extended(v) && Extended(w)
    modifies r.X, r.Y, r.Z, r.T
    ensures r.Holds(Sum(v, w)) && IsSum(Sum(v, w), v, w)
  {
    hide Is;
    hide Times;
    hide Sum;
    hide IsSum;
    hide Extended;
    var t0 := new int[10];
    ghost var g := Sum(v, w);
    FourProducts(v, w);
    SumIsSum(v, w);
    ThreeProducts(r, p, q.yPlusX, q.yMinusX, q.xy2d, v, 22, w.Y + w.X, w.Y - w.X, Times(w.T, 2 * D));
    Add(t0, p.Z, p.Z, 22, 22, v.Z, v.Z);
    ghost var zz, c := 2 * v.Z, Times(Times(w.T, 2 * D), v.T);
    DifferenceAndSum(r, Times(v.Y + v.X, w.Y + w.X), Times(v.Y - v.X, w.Y - w.X), g.X, g.Y);
    SumAndDifference(r, t0, zz, c, g.Z, g.T);
  }

  /** r = p - q, for p and q standing for v and w. */
  method GeMixedSub(r: CompletedGroupElement, p: ExtendedGroupElement, q: PreComputedGroupElement, ghost v: Point,
      ghost w: Point)
    requires r.Shape() && p.Shape() && q.Shape()
    requires p.Outside(r.X) && p.Outside(r.Y) && p.Outside(r.Z) && p.Outside(r.T)
    requires q.Outside(r.X) && q.Outside(r.Y) && q.Outside(r.Z) && q.Outside(r.T)
    requires p.Holds(v) && q.Holds(w) && Extended(v) && Extended(w)
    modifies r.X, r.Y, r.Z, r.T
    ensures r.Holds(Sum(v, Negated(w))) && IsSum(Sum(v, Negated(w)), v, Negated(w))
  {
    hide Is;
    hide Times;
    hide Sum;
    hide IsSum;
    hide Extended;
    var t0 := new int[10];
    ghost var g := Sum(v, Negated(w));
    FourProductsNegated(v, w);
    ThreeProducts(r, p, q.yMinusX, q.yPlusX, q.xy2d, v, 22, w.Y - w.X, w.Y + w.X, Times(w.T, 2 * D));
    Add(t0, p.Z, p.Z, 22, 22, v.Z, v.Z);
    ghost var zz, c := 2 * v.Z, Times(Times(w.T, 2 * D), v.T);
    DifferenceAndSum(r, Times(v.Y + v.X, w.Y - w.X), Times(v.Y - v.X, w.Y + w.X), g.X, g.Y);
    DifferenceThenSum(r, t0, zz, c, g.Z, g.T);
  }

  // ---------------------------------------------------------------------------------------
  // The choice from a row of the table
  // ---------------------------------------------------------------------------------------

  ghost predicate RowOutside(row: seq<PreComputedGroupElement>, t: PreComputedGroupElement) {
    forall i :: 0 <= i < |row| ==> row[i].Outside(t.yPlusX) && row[i].Outside(t.yMinusX) && row[i].Outside(t.xy2d)
  }

  ghost predicate RowHolds(row: seq<PreComputedGroupElement>, points: seq<Point>)
    reads set u <- row :: u.yPlusX, set u <- row :: u.yMinusX, set u <- row :: u.xy2d
  {
    |row| == |points| == 8 && forall i :: 0 <= i < 8 ==> row[i].Shape() && row[i].Holds(points[i])
  }

  /** Coordinates stand for elements of a group, and those of a row for x, 2 x, ..., 8 x. */
  ghost predicate RowOfMultiples<T(!new)>(g: Groups.Group<T>, val: Point -> T, points: seq<Point>, x: T) {
    && |points| == 8 && (forall i :: 0 <= i < 8 ==> val(points[i]) == Groups.Times(g, i + 1, x))
    && val(Point(0, 1, 1, 0)) == g.zero && KeepsNegation(g, val)
  }

  ghost predicate KeepsNegation<T(!new)>(g: Groups.Group<T>, val: Point -> T) {
    forall v: Point :: val(Negated(v)) == g.neg(val(v))
  }

  lemma NegatedMultiple<T(!new)>(g: Groups.Group<T>, val: Point -> T, v: Point, b: int, x: T)
    requires KeepsNegation(g, val) && val(v) == Groups.Times(g, Abs(b), x)
    ensures (if b < 0 then val(Negated(v)) else val(v)) == Groups.Times(g, b, x)
  {
  }

  /** The eight conditional moves of selectPoint. */
  method SelectPositive<T(!new)>(t: PreComputedGroupElement, row: seq<PreComputedGroupElement>, bAbs: int,
    ghost points: seq<Point>, ghost g: Groups.Group<T>, ghost val: Point -> T, ghost x: T)
    returns (ghost v: Point)
    requires t.Shape() && RowHolds(row, points) && RowOutside(row, t) && 0 <= bAbs <= 8
    requires RowOfMultiples(g, val, points, x)
    modifies t.yPlusX, t.yMinusX, t.xy2d
    ensures t.Holds(v) && val(v) == Groups.Times(g, bAbs, x)
    ensures v == if bAbs == 0 then Point(0, 1, 1, 0) else points[bAbs - 1]
  {
    hide Is;
    t.Zero();
    v := Point(0, 1, 1, 0);
    var i := 0;
    while i < 8
      invariant 0 <= i <= 8 && t.Holds(v)
      invariant forall j :: 0 <= j < 8 ==> row[j].Holds(points[j])
      invariant v == if 0 < bAbs <= i then points[bAbs - 1] else Point(0, 1, 1, 0)
    {
      var b := Words.Equal(bAbs, i + 1);
      t.CMove(row[i], b, v, points[i]);
      v := if bAbs == i + 1 then points[i] else v;
      i := i + 1;
    }
  }

  /** selectPoint, on the limbs of the points: what t holds afterwards stands for b x. */
  method SelectPoint<T(!new)>(t: PreComputedGroupElement, row: seq<PreComputedGroupElement>, b: int,
    ghost points: seq<Point>, ghost g: Groups.Group<T>, ghost val: Point -> T, ghost x: T)
    returns (ghost v: Point)
    requires t.Shape() && RowHolds(row, points) && RowOutside(row, t) && -8 <= b <= 8
    requires RowOfMultiples(g, val, points, x)
    modifies t.yPlusX, t.yMinusX, t.xy2d
    ensures t.Holds(v) && val(v) == Groups.Times(g, b, x)
    ensures b > 0 ==> v == points[b - 1]
    ensures b < 0 ==> v == Negated(points[-b - 1])
    ensures b == 0 ==> v == Point(0, 1, 1, 0)
  {
    hide Is;
    hide Negated;
    hide KeepsNegation;
    hide Groups.Times;
    var minusT := new PreComputedGroupElement();
    var bNegative := Words.Negative(b);
    var bAbs := Words.Absolute(b, bNegative);
    ghost var u := SelectPositive(t, row, bAbs, points, g, val, x);
    t.Negate(minusT, u);
    t.CMove(minusT, bNegative, u, Negated(u));
    v := if bNegative == 1 then Negated(u) else u;
    NegatedMultiple(g, val, u, b, x);
  }
}
