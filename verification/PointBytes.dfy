/** The encoding of points (RFC 8032, section 5.1.2), from projective or extended coordinates. */
module PointBytes {
  import opened Bits
  import opened Field
  import opened FieldBytes
  import opened FieldOps
  import opened Points
  import Words

  /** The affine coordinate x / z as ToBytes computes it, with a power for the inverse. */
  function Affine(x: int, z: int): (a: int)
    ensures 0 <= a < P
  {
    (x * Pow(z, P - 2)) % P
  }

  /** y, with the lowest bit of x above it. */
  function Encoded(x: int, y: int): int {
    y + TWO_255 * (x % 2)
  }

  function EncodedPoint(v: Point): int {
    Encoded(Affine(v.X, v.Z), Affine(v.Y, v.Z))
  }

  lemma {:induction false} SamePower(a: int, b: int, n: nat)
    requires Cong(a, b)
    ensures Cong(Pow(a, n), Pow(b, n))
  {
    if n > 0 {
      SamePower(a, b, n - 1);
      CongMul(a, Pow(a, n - 1), b, Pow(b, n - 1));
    }
  }

  /** The share of the last byte in the value. */
  lemma {:induction false} LastByte(b: seq<Byte>, x: Byte, i: nat)
    requires |b| == 32 && i <= 31
    ensures LittleEndianFrom(b[31 := x], i) == LittleEndianFrom(b, i) + (x - b[31]) * Pow2(8 * (31 - i))
    decreases 31 - i
  {
    hide LittleEndianFrom;
    hide Pow2;
    if i < 31 {
      LastByte(b, x, i + 1);
      NextByte(b, i);
      NextByte(b[31 := x], i);
      Pow2Add(8, 8 * (30 - i));
      PowersOfTwo();
      var d, p := x - b[31], Pow2(8 * (30 - i));
      assert 256 * (d * p) == d * (256 * p);
    } else {
      LastOne(b);
      LastOne(b[31 := x]);
    }
  }

  lemma NextByte(b: seq<Byte>, i: nat)
    requires i < |b|
    ensures LittleEndianFrom(b, i) == At(b, i) + 256 * LittleEndianFrom(b, i + 1)
  {
  }

  lemma LastOne(b: seq<Byte>)
    requires |b| == 32
    ensures LittleEndianFrom(b, 31) == b[31] && Pow2(0) == 1
  {
    assert LittleEndianFrom(b, 32) == 0;
  }

  lemma TopBit()
    ensures 128 * Pow2(248) == TWO_255
  {
    hide Pow2;
    PowersOfTwo();
    Pow2Add(7, 24);
    Pow2Add(31, 31);
    Pow2Add(62, 62);
    Pow2Add(124, 124);
  }

  lemma SmallFactor(x: nat, m: nat, p: nat, n: nat)
    requires x * p <= n < m * p
    ensures x < m
  {
    if x >= m {
      MulMono(m, x, p);
    }
  }

  /** A number below 2^255 leaves the top bit free for the sign. */
  lemma SignByte(b: seq<Byte>, sign: int)
    requires |b| == 32 && LittleEndian(b) < TWO_255 && 0 <= sign <= 1
    ensures
      var x := Words.BitXor(b[31], sign * 128);
      x < 256 && LittleEndian(b[31 := x]) == LittleEndian(b) + TWO_255 * sign
  {
    hide LittleEndianFrom;
    hide Pow2;
    hide Words.BitXor;
    LastByte(b, 0, 0);
    TopBit();
    SmallFactor(b[31], 128, Pow2(248), LittleEndian(b));
    PowersOfTwo();
    Words.XorIsSum(b[31], sign, 7);
    LastByte(b, b[31] + sign * 128, 0);
    assert sign * 128 * Pow2(248) == sign * (128 * Pow2(248));
  }

  /** The body of both ToBytes methods. */
  method ToBytes(s: array<Byte>, X: array<int>, Y: array<int>, Z: array<int>, ghost v: Point)
    requires s.Length == 32 && X.Length == Y.Length == Z.Length == 10
    requires Is(X, 22, v.X) && Is(Y, 22, v.Y) && Is(Z, 22, v.Z)
    modifies s
    ensures LittleEndian(s[..]) == EncodedPoint(v)
  {
    hide Pow;
    hide Val;
    hide Times;
    hide Is;
    hide Range;
    hide LittleEndianFrom;
    hide EncodedPoint;
    hide Words.BitXor;
    var recip, x, y := new int[10], new int[10], new int[10];
    ghost var z, r := Val(Z[..]), Pow(v.Z, P - 2);
    Limbs(Z, 22, v.Z);
    Wider(Z[..], 22, 66);
    FeInvert(recip, Z);
    SamePower(z, v.Z, P - 2);
    Inverted(recip, z, v.Z);
    Mul(x, X, recip, 22, 66, v.X, r);
    Mul(y, Y, recip, 22, 66, v.Y, r);
    Limbs(x, 22, Times(v.X, r));
    Limbs(y, 22, Times(v.Y, r));
    AsEncoded(v);
    Wider(x[..], 22, 44);
    Wider(y[..], 22, 44);
    FeToBytes(s, y);
    var sign := FeIsNegative(x);
    SignByte(s[..], sign);
    ghost var b := s[..];
    s[31] := Words.BitXor(s[31], sign * 128);
    assert s[..] == b[31 := s[31]];
  }

  lemma Limbs(a: array<int>, n: nat, v: int)
    requires a.Length == 10 && Is(a, n, v)
    ensures Range(a[..], n) && Cong(Val(a[..]), v)
  {
  }

  lemma Inverted(recip: array<int>, z: int, w: int)
    requires recip.Length == 10 && Holds(recip, z, P - 2) && Cong(Pow(z, P - 2), Pow(w, P - 2))
    ensures Is(recip, 66, Pow(w, P - 2))
  {
    hide Pow;
    hide Val;
  }

  lemma AsEncoded(v: Point)
    ensures
      var r := Pow(v.Z, P - 2);
      EncodedPoint(v) == Times(v.Y, r) % P + TWO_255 * (Times(v.X, r) % P % 2)
  {
    hide Pow;
  }

  /** ToBytes of a point in extended coordinates, and in projective ones. */
  method ExtendedToBytes(p: ExtendedGroupElement, s: array<Byte>, ghost v: Point)
    requires s.Length == 32 && p.Shape() && p.Holds(v)
    modifies s
    ensures LittleEndian(s[..]) == EncodedPoint(v)
  {
    ToBytes(s, p.X, p.Y, p.Z, v);
  }

  method ProjectiveToBytes(p: ProjectiveGroupElement, s: array<Byte>, ghost v: Point)
    requires s.Length == 32 && p.Shape() && p.Holds(v)
    modifies s
    ensures LittleEndian(s[..]) == EncodedPoint(v)
  {
    ToBytes(s, p.X, p.Y, p.Z, v);
  }

  // ---------------------------------------------------------------------------------------
  // What an encoding tells
  // ---------------------------------------------------------------------------------------

  /** The two facts about a prime P that the encoding rests on. */
  ghost predicate NoZeroDivisors() {
    forall a: int, b: int :: Cong(Times(a, b), 0) ==> Cong(a, 0) || Cong(b, 0)
  }

  ghost predicate FermatFor(z: int) {
    Cong(Pow(z, P - 1), 1)
  }

  ghost predicate Fermat() {
    forall z: int {:trigger FermatFor(z)} :: Cong(z, 0) || FermatFor(z)
  }

  /** Equal quotients, with the denominators multiplied out. */
  predicate SameAffine(v: Point, w: Point) {
    Cong(v.X * w.Z, w.X * v.Z) && Cong(v.Y * w.Z, w.Y * v.Z)
  }

  lemma Inverse(z: int)
    requires Fermat() && !Cong(z, 0)
    ensures Cong(z * Pow(z, P - 2), 1)
  {
    assert FermatFor(z);
    InverseByFermat(z, Pow(z, P - 2));
  }

  lemma CrossMultiplied(x: int, z: int, i: int, x': int, z': int, i': int)
    requires Cong(z * i, 1) && Cong(z' * i', 1)
    ensures Cong(x * i, x' * i') <==> Cong(x * z', x' * z)
  {
    assert (x * i) * (z * z') == (x * z') * (z * i);
    assert (x' * i') * (z * z') == (x' * z) * (z' * i');
    assert (x * z') * (i * i') == (x * i) * (z' * i');
    assert (x' * z) * (i * i') == (x' * i') * (z * i);
    hide Cong;
    if Cong(x * i, x' * i') {
      Same(z * z');
      CongMul(x * i, z * z', x' * i', z * z');
      UnitFactor(x * z', z * i);
      UnitFactor(x' * z, z' * i');
      Chain(x * z', (x * i) * (z * z'), (x' * i') * (z * z'));
      Chain(x * z', (x' * i') * (z * z'), x' * z);
    }
    if Cong(x * z', x' * z) {
      Same(i * i');
      CongMul(x * z', i * i', x' * z, i * i');
      UnitFactor(x * i, z' * i');
      UnitFactor(x' * i', z * i);
      Chain(x * i, (x * z') * (i * i'), (x' * z) * (i * i'));
      Chain(x * i, (x' * z) * (i * i'), x' * i');
    }
  }

  lemma UnitFactor(a: int, e: int)
    requires Cong(e, 1)
    ensures Cong(a * e, a)
  {
    CongMul(a, e, a, 1);
  }

  /** The affine curve equation for residues. */
  predicate OnAffineCurve(x: int, y: int) {
    Cong(y * y - x * x, 1 + D * ((x * x) * (y * y)))
  }

  lemma SquareOfProduct(x: int, i: int)
    ensures (x * i) * (x * i) == (x * x) * (i * i)
  {
  }

  lemma Homogeneous(xx: int, yy: int, zz: int, ii: int)
    requires Cong((yy - xx) * zz, zz * zz + D * (xx * yy)) && Cong(zz * ii, 1)
    ensures Cong(yy * ii - xx * ii, 1 + D * ((xx * ii) * (yy * ii)))
  {
    var u, w, d := yy * ii - xx * ii, zz * ii, D * (xx * yy) * (ii * ii);
    Same(ii * ii);
    CongMul((yy - xx) * zz, ii * ii, zz * zz + D * (xx * yy), ii * ii);
    Dehomogenised(xx, yy, zz, ii);
    UnitFactor(u, w);
    CongMul(w, w, 1, 1);
    Divided(u * w, w * w, u, d);
  }

  lemma Divided(uw: int, ww: int, u: int, d: int)
    requires Cong(uw, ww + d) && Cong(uw, u) && Cong(ww, 1)
    ensures Cong(u, 1 + d)
  {
    Same(d);
    CongAdd(ww, d, 1, d);
    hide Cong;
    Chain(u, uw, ww + d);
    Chain(u, ww + d, 1 + d);
  }

  lemma Dehomogenised(xx: int, yy: int, zz: int, ii: int)
    ensures ((yy - xx) * zz) * (ii * ii) == (yy * ii - xx * ii) * (zz * ii)
    ensures (zz * zz + D * (xx * yy)) * (ii * ii) == (zz * ii) * (zz * ii) + D * (xx * yy) * (ii * ii)
    ensures D * (xx * yy) * (ii * ii) == D * ((xx * ii) * (yy * ii))
  {
    assert (yy - xx) * ii == yy * ii - xx * ii;
    assert ((yy - xx) * zz) * (ii * ii) == ((yy - xx) * ii) * (zz * ii);
    assert (zz * zz) * (ii * ii) == (zz * ii) * (zz * ii);
    assert (xx * yy) * (ii * ii) == (xx * ii) * (yy * ii);
  }

  lemma Same(a: int)
    ensures Cong(a, a)
  {
  }

  /** Congruence from two others that share one side, in either order. */
  lemma Chain(a: int, b: int, c: int)
    requires (Cong(a, b) || Cong(b, a)) && (Cong(b, c) || Cong(c, b))
    ensures Cong(a, c)
  {
  }

  /** The affine curve equation for other squares modulo P. */
  lemma CongruentSquares(xx: int, yy: int, uu: int, ww: int)
    requires Cong(yy - xx, 1 + D * (xx * yy)) && Cong(xx, uu) && Cong(yy, ww)
    ensures Cong(ww - uu, 1 + D * (uu * ww))
  {
    hide Cong;
    Same(D);
    Same(1);
    CongAdd(yy, xx, ww, uu);
    CongMul(xx, yy, uu, ww);
    CongMul(D, xx * yy, D, uu * ww);
    CongAdd(1, D * (xx * yy), 1, D * (uu * ww));
    Chain(ww - uu, yy - xx, 1 + D * (xx * yy));
    Chain(ww - uu, 1 + D * (xx * yy), 1 + D * (uu * ww));
  }

  lemma Residue(x: int)
    ensures Cong(x, x % P)
  {
  }

  /** On the curve y and the lowest bit of x determine x. */
  lemma SignDeterminesX(x: int, x': int, y: int)
    requires NoZeroDivisors() && OnAffineCurve(x, y) && OnAffineCurve(x', y)
    requires 0 <= x < P && 0 <= x' < P && x % 2 == x' % 2
    ensures x == x'
  {
    hide Cong;
    hide Times;
    var xx, zz, yy := x * x, x' * x', y * y;
    var q := D * (xx * yy) - D * (zz * yy);
    Same(q);
    NotMinusOne(xx, yy);
    CongAdd(yy - xx, yy - zz, 1 + D * (xx * yy), 1 + D * (zz * yy));
    CongAdd(q, zz - xx, q, q);
    Factors(x, x', yy);
    assert Cong(Times(xx - zz, 1 + D * yy), 0);
    assert Cong(Times(x - x', x + x'), 0);
    SameParity(x, x');
  }

  lemma Factors(x: int, x': int, yy: int)
    ensures
      var xx, zz := x * x, x' * x';
      Times(xx - zz, 1 + D * yy) == D * (xx * yy) - D * (zz * yy) - (zz - xx) && xx - zz == Times(x - x', x + x')
  {
    var xx, zz := x * x, x' * x';
    assert (xx - zz) * (D * yy) == D * (xx * yy) - D * (zz * yy);
    assert (xx - zz) * (1 + D * yy) == (xx - zz) + (xx - zz) * (D * yy);
    assert (x - x') * (x + x') == x * (x + x') - x' * (x + x');
  }

  lemma SameParity(x: int, x': int)
    requires 0 <= x < P && 0 <= x' < P && x % 2 == x' % 2
    requires Cong(x - x', 0) || Cong(x + x', 0)
    ensures x == x'
  {
  }

  /** 1 + d y^2 is not zero on the curve, since d is not -1. */
  lemma NotMinusOne(xx: int, yy: int)
    requires Cong(yy - xx, 1 + D * (xx * yy))
    ensures !Cong(1 + D * yy, 0)
  {
    assert !Cong(1 + D, 0);
    hide Cong;
    var e := 1 + D * yy;
    if Cong(e, 0) {
      Same(xx);
      Same(1);
      Same(D);
      CongMul(xx, e, xx, 0);
      CongAdd(yy - xx, xx, 1 + D * (xx * yy), xx);
      assert xx * e == xx + D * (xx * yy);
      CongAdd(1, xx * e, 1, 0);
      Chain(yy, 1 + xx * e, 1);
      CongMul(D, yy, D, 1);
      CongAdd(1, D * yy, 1, D);
      Chain(1 + D, e, 0);
      assert false;
    }
  }

  /** A point of the curve in coordinates that have an affine form. */
  predicate Proper(v: Point) {
    OnCurve(v) && !Cong(v.Z, 0)
  }

  /** Encodings are equal exactly for equal points, if P is prime. */
  lemma EncodingIsInjective()
    requires NoZeroDivisors() && Fermat()
    ensures forall v: Point, w: Point {:trigger EncodedPoint(v), EncodedPoint(w)} ::
      Proper(v) && Proper(w) ==> (EncodedPoint(v) == EncodedPoint(w) <==> SameAffine(v, w))
  {
    hide Pow;
    forall v: Point, w: Point | Proper(v) && Proper(w)
      ensures EncodedPoint(v) == EncodedPoint(w) <==> SameAffine(v, w)
    {
      forall p: Point | p == v || p == w
        ensures OnAffineCurve(Affine(p.X, p.Z), Affine(p.Y, p.Z))
      {
        var k := Pow(p.Z, P - 2);
        var x, y := p.X * k, p.Y * k;
        Inverse(p.Z);
        SquareOfProduct(p.X, k);
        SquareOfProduct(p.Y, k);
        SquareOfProduct(p.Z, k);
        CongMul(p.Z * k, p.Z * k, 1, 1);
        Homogeneous(p.X * p.X, p.Y * p.Y, p.Z * p.Z, k * k);
        Residue(x);
        Residue(y);
        CongMul(x, x, x % P, x % P);
        CongMul(y, y, y % P, y % P);
        CongruentSquares(x * x, y * y, (x % P) * (x % P), (y % P) * (y % P));
      }
      Inverse(v.Z);
      Inverse(w.Z);
      CrossMultiplied(v.X, v.Z, Pow(v.Z, P - 2), w.X, w.Z, Pow(w.Z, P - 2));
      CrossMultiplied(v.Y, v.Z, Pow(v.Z, P - 2), w.Y, w.Z, Pow(w.Z, P - 2));
      if EncodedPoint(v) == EncodedPoint(w) {
        ModUnique(EncodedPoint(v), TWO_255, Affine(v.X, v.Z) % 2, Affine(v.Y, v.Z));
        ModUnique(EncodedPoint(w), TWO_255, Affine(w.X, w.Z) % 2, Affine(w.Y, w.Z));
        SignDeterminesX(Affine(v.X, v.Z), Affine(w.X, w.Z), Affine(v.Y, v.Z));
      }
    }
  }
}
