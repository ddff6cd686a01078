/**
  Addition, subtraction and negation of field elements, and the two power chains: FeInvert raises to
  P - 2 and fePow22523 to (P - 5) / 8.
*/
module FieldOps {
  import opened Bits
  import opened Field
  import Words

  method FeZero(fe: array<int>)
    requires fe.Length == 10
    modifies fe
    ensures Val(fe[..]) == 0 && Range(fe[..], 0)
  {
    forall i | 0 <= i < 10 {
      fe[i] := 0;
    }
  }

  method FeOne(fe: array<int>)
    requires fe.Length == 10
    modifies fe
    ensures Val(fe[..]) == 1 && Range(fe[..], 1)
  {
    FeZero(fe);
    fe[0] := 1;
  }

  method FeCopy(dst: array<int>, src: array<int>)
    requires dst.Length == src.Length == 10
    modifies dst
    ensures dst[..] == old(src[..])
  {
    forall i | 0 <= i < 10 {
      dst[i] := src[i];
    }
  }

  /** Limbs as Go's int32 variables hold them. */
  ghost predicate AreInt32(a: seq<int>) {
    forall i :: 0 <= i < |a| ==> Words.IsInt32(a[i])
  }

  lemma RangeIsInt32(a: seq<int>, n: nat)
    requires |a| == 10 && Range(a, n) && n <= 66
    ensures AreInt32(a)
  {
  }

  /** Replaces f by g if b is 1, and leaves it if b is 0. */
  method FeCMove(f: array<int>, g: array<int>, b: int)
    requires f.Length == g.Length == 10 && (b == 0 || b == 1)
    requires AreInt32(f[..]) && AreInt32(g[..])
    modifies f
    ensures f[..] == old(if b == 1 then g[..] else f[..])
  {
    for i := 0 to 10
      invariant forall j :: 0 <= j < i ==> f[j] == old(if b == 1 then g[j] else f[j])
      invariant forall j :: i <= j < 10 ==> f[j] == old(f[j])
      invariant f != g ==> g[..] == old(g[..])
    {
      assert f[i] == old(f[..])[i] && g[i] == old(g[..])[i];
      var x := Words.Moved(f[i], g[i], b);
      f[i] := x;
    }
  }

  /** dst = a + b; dst may be a or b, and the bounds add up. */
  method FeAdd(dst: array<int>, a: array<int>, b: array<int>, ghost m: nat, ghost n: nat)
    requires dst.Length == a.Length == b.Length == 10
    requires Range(a[..], m) && Range(b[..], n) && m + n <= 1000
    modifies dst
    ensures Val(dst[..]) == old(Val(a[..]) + Val(b[..])) && Range(dst[..], m + n)
  {
    ghost var x, y := a[..], b[..];
    var s0 := Int32(a[0] + b[0]);
    var s1 := Int32(a[1] + b[1]);
    var s2 := Int32(a[2] + b[2]);
    var s3 := Int32(a[3] + b[3]);
    var s4 := Int32(a[4] + b[4]);
    var s5 := Int32(a[5] + b[5]);
    var s6 := Int32(a[6] + b[6]);
    var s7 := Int32(a[7] + b[7]);
    var s8 := Int32(a[8] + b[8]);
    var s9 := Int32(a[9] + b[9]);
    dst[0] := s0;
    dst[1] := s1;
    dst[2] := s2;
    dst[3] := s3;
    dst[4] := s4;
    dst[5] := s5;
    dst[6] := s6;
    dst[7] := s7;
    dst[8] := s8;
    dst[9] := s9;
    SumOfLimbs(x, y, dst[..], m, n);
  }

  /** dst = a - b; dst may be a or b. */
  method FeSub(dst: array<int>, a: array<int>, b: array<int>, ghost m: nat, ghost n: nat)
    requires dst.Length == a.Length == b.Length == 10
    requires Range(a[..], m) && Range(b[..], n) && m + n <= 1000
    modifies dst
    ensures Val(dst[..]) == old(Val(a[..]) - Val(b[..])) && Range(dst[..], m + n)
  {
    ghost var x, y := a[..], b[..];
    var s0 := Int32(a[0] - b[0]);
    var s1 := Int32(a[1] - b[1]);
    var s2 := Int32(a[2] - b[2]);
    var s3 := Int32(a[3] - b[3]);
    var s4 := Int32(a[4] - b[4]);
    var s5 := Int32(a[5] - b[5]);
    var s6 := Int32(a[6] - b[6]);
    var s7 := Int32(a[7] - b[7]);
    var s8 := Int32(a[8] - b[8]);
    var s9 := Int32(a[9] - b[9]);
    dst[0] := s0;
    dst[1] := s1;
    dst[2] := s2;
    dst[3] := s3;
    dst[4] := s4;
    dst[5] := s5;
    dst[6] := s6;
    dst[7] := s7;
    dst[8] := s8;
    dst[9] := s9;
    DifferenceOfLimbs(x, y, dst[..], m, n);
  }

  lemma SumOfLimbs(x: seq<int>, y: seq<int>, s: seq<int>, m: int, n: int)
    requires Range(x, m) && Range(y, n) && |s| == 10
    requires s[0] == x[0] + y[0] && s[1] == x[1] + y[1] && s[2] == x[2] + y[2]
    requires s[3] == x[3] + y[3] && s[4] == x[4] + y[4]
    requires s[5] == x[5] + y[5] && s[6] == x[6] + y[6] && s[7] == x[7] + y[7]
    requires s[8] == x[8] + y[8] && s[9] == x[9] + y[9]
    ensures Range(s, m + n) && Val(s) == Val(x) + Val(y)
  {
  }

  lemma DifferenceOfLimbs(x: seq<int>, y: seq<int>, s: seq<int>, m: int, n: int)
    requires Range(x, m) && Range(y, n) && |s| == 10
    requires s[0] == x[0] - y[0] && s[1] == x[1] - y[1] && s[2] == x[2] - y[2]
    requires s[3] == x[3] - y[3] && s[4] == x[4] - y[4]
    requires s[5] == x[5] - y[5] && s[6] == x[6] - y[6] && s[7] == x[7] - y[7]
    requires s[8] == x[8] - y[8] && s[9] == x[9] - y[9]
    ensures Range(s, m + n) && Val(s) == Val(x) - Val(y)
  {
  }

  /** h = -f; h may be f. */
  method FeNeg(h: array<int>, f: array<int>, ghost n: nat)
    requires h.Length == f.Length == 10
    requires Range(f[..], n) && n <= 1000
    modifies h
    ensures Val(h[..]) == -old(Val(f[..])) && Range(h[..], n)
  {
    ghost var x := f[..];
    var s0 := Int32(-f[0]);
    var s1 := Int32(-f[1]);
    var s2 := Int32(-f[2]);
    var s3 := Int32(-f[3]);
    var s4 := Int32(-f[4]);
    var s5 := Int32(-f[5]);
    var s6 := Int32(-f[6]);
    var s7 := Int32(-f[7]);
    var s8 := Int32(-f[8]);
    var s9 := Int32(-f[9]);
    h[0] := s0;
    h[1] := s1;
    h[2] := s2;
    h[3] := s3;
    h[4] := s4;
    h[5] := s5;
    h[6] := s6;
    h[7] := s7;
    h[8] := s8;
    h[9] := s9;
    NegatedLimbs(x, h[..], n);
  }

  lemma NegatedLimbs(x: seq<int>, s: seq<int>, n: int)
    requires Range(x, n) && |s| == 10
    requires s[0] == -x[0] && s[1] == -x[1] && s[2] == -x[2] && s[3] == -x[3] && s[4] == -x[4]
    requires s[5] == -x[5] && s[6] == -x[6] && s[7] == -x[7] && s[8] == -x[8] && s[9] == -x[9]
    ensures Range(s, n) && Val(s) == -Val(x)
  {
  }

  // ---------------------------------------------------------------------------------------
  // Residues
  // ---------------------------------------------------------------------------------------

  lemma CongMul(a: int, b: int, c: int, d: int)
    requires Cong(a, c) && Cong(b, d)
    ensures Cong(a * b, c * d)
  {
    var k, l := a / P - c / P, b / P - d / P;
    assert a == c + k * P && b == d + l * P;
    MulShifted(c, d, k, l, P);
    CongShift(a * b, c * d, -(c * l + k * d + k * l * P));
  }

  lemma MulShifted(c: int, d: int, k: int, l: int, m: int)
    ensures (c + k * m) * (d + l * m) == c * d + (c * l + k * d + k * l * m) * m
  {
    assert (c + k * m) * (d + l * m) == c * d + c * (l * m) + (k * m) * d + (k * m) * (l * m);
    assert (c * l + k * d + k * l * m) * m == (c * l) * m + (k * d) * m + (k * l * m) * m;
    Assoc(c, l, m);
    Assoc(k, l * m, m);
  }

  // ---------------------------------------------------------------------------------------
  // Powers
  // ---------------------------------------------------------------------------------------

  function Pow(z: int, n: nat): int
    decreases n, z
  {
    if n == 0 then 1 else z * Pow(z, n - 1)
  }

  lemma {:induction false} PowAdd(z: int, m: nat, n: nat)
    ensures Pow(z, m + n) == Pow(z, m) * Pow(z, n)
  {
    if m != 0 {
      PowAdd(z, m - 1, n);
      Assoc(z, Pow(z, m - 1), Pow(z, n));
    }
  }

  /** v is the e-th power of z, modulo P. */
  ghost predicate IsPower(v: int, z: int, e: nat) {
    Cong(v, Pow(z, e))
  }

  lemma PowerOfProduct(x: int, m: nat, y: int, n: nat, w: int, z: int)
    requires IsPower(x, z, m) && IsPower(y, z, n) && Cong(w, x * y)
    ensures IsPower(w, z, m + n)
  {
    CongMul(x, y, Pow(z, m), Pow(z, n));
    PowAdd(z, m, n);
  }

  /** t holds the e-th power of z within the bounds that FeMul and FeSquare accept. */
  ghost predicate Holds(t: array<int>, z: int, e: nat)
    requires t.Length == 10
    reads t
  {
    Range(t[..], 66) && IsPower(Val(t[..]), z, e)
  }

  lemma FirstPower(z: array<int>)
    requires z.Length == 10 && Range(z[..], 66)
    ensures Holds(z, Val(z[..]), 1)
  {
    assert Pow(Val(z[..]), 1) == Val(z[..]);
  }

  method Multiply(h: array<int>, f: array<int>, g: array<int>, ghost z: int, ghost m: nat, ghost n: nat)
    requires h.Length == f.Length == g.Length == 10 && Holds(f, z, m) && Holds(g, z, n)
    modifies h
    ensures Holds(h, z, m + n)
  {
    ghost var x, y := Val(f[..]), Val(g[..]);
    FeMul(h, f, g);
    PowerOfProduct(x, m, y, n, Val(h[..]), z);
  }

  method Square(h: array<int>, f: array<int>, ghost z: int, ghost m: nat)
    requires h.Length == f.Length == 10 && Holds(f, z, m)
    modifies h
    ensures Holds(h, z, 2 * m)
  {
    ghost var x := Val(f[..]);
    FeSquare(h, f);
    PowerOfProduct(x, m, x, m, Val(h[..]), z);
  }

  /** FeSquare(&t, &f) and then `for i = 1; i < n; i++ { FeSquare(&t, &t) }`; t may be f. */
  method SquareTimes(t: array<int>, f: array<int>, n: nat, ghost z: int, ghost m: nat)
    requires n > 0 && t.Length == f.Length == 10 && Holds(f, z, m)
    modifies t
    ensures Holds(t, z, Pow2(n) * m)
  {
    hide Holds;
    Square(t, f, z, m);
    var i := 1;
    while i < n
      invariant 1 <= i <= n
      invariant Holds(t, z, Pow2(i) * m)
    {
      Square(t, t, z, Pow2(i) * m);
      Assoc(2, Pow2(i), m);
      i := i + 1;
    }
  }

  /** From an exponent of a ones and one of n ones, in binary, to one of a + n ones: h = f^(2^n) * g by way of t. */
  method Append(h: array<int>, t: array<int>, f: array<int>, g: array<int>, n: nat, ghost z: int, ghost a: nat)
    requires n > 0 && h.Length == t.Length == f.Length == g.Length == 10 && t != g
    requires Holds(f, z, Pow2(a) - 1) && Holds(g, z, Pow2(n) - 1)
    modifies h, t
    ensures Holds(h, z, Pow2(a + n) - 1)
  {
    hide Holds;
    SquareTimes(t, f, n, z, Pow2(a) - 1);
    Multiply(h, t, g, z, Pow2(n) * (Pow2(a) - 1), Pow2(n) - 1);
    Pow2Add(a, n);
  }

  lemma Pow125()
    ensures Pow2(62) == 0x4000_0000_0000_0000 && Pow2(125) == 0x2000_0000_0000_0000_0000_0000_0000_0000
  {
    Pow2Add(62, 63);
    Pow2Add(62, 1);
    Pow2Add(31, 31);
    Pow2Add(24, 7);
    PowersOfTwo();
  }

  lemma ExponentOfInverse()
    ensures 0x20 * (Pow2(250) - 1) + 11 == P - 2
    ensures 4 * (Pow2(250) - 1) + 1 == (P - 5) / 8
  {
    Pow125();
    Pow2Add(125, 125);
    hide Pow2;
  }

  /** The opening of both chains: t0 = z^11 and t1 = z^9. */
  method FirstPowers(t0: array<int>, t1: array<int>, z: array<int>, ghost x: int)
    requires t0.Length == t1.Length == z.Length == 10 && t0 != t1 && z != t0 && z != t1
    requires Holds(z, x, 1)
    modifies t0, t1
    ensures Holds(t0, x, 11) && Holds(t1, x, 9)
  {
    hide Holds;
    Square(t0, z, x, 1);
    SquareTimes(t1, t0, 2, x, 2);
    Multiply(t1, z, t1, x, 1, 8);
    Multiply(t0, t0, t1, x, 2, 9);
  }

  method StartInvert(t0: array<int>, t1: array<int>, t2: array<int>, z: array<int>)
    requires t0.Length == t1.Length == t2.Length == z.Length == 10 && Range(z[..], 66)
    requires t0 != t1 && t0 != t2 && t1 != t2 && z != t0 && z != t1
    modifies t0, t1, t2
    ensures Holds(t0, old(Val(z[..])), 11) && Holds(t1, old(Val(z[..])), Pow2(5) - 1)
  {
    ghost var x := Val(z[..]);
    FirstPower(z);
    hide Holds;
    FirstPowers(t0, t1, z, x);
    Square(t2, t0, x, 11);
    Multiply(t1, t1, t2, x, 9, 22);
  }

  method StartPow(t0: array<int>, t1: array<int>, z: array<int>)
    requires t0.Length == t1.Length == z.Length == 10 && Range(z[..], 66)
    requires t0 != t1 && z != t0 && z != t1
    modifies t0, t1
    ensures Holds(z, old(Val(z[..])), 1) && Holds(t0, old(Val(z[..])), Pow2(5) - 1)
  {
    ghost var x := Val(z[..]);
    FirstPower(z);
    hide Holds;
    FirstPowers(t0, t1, z, x);
    Square(t0, t0, x, 11);
    Multiply(t0, t1, t0, x, 9, 22);
  }

  /** The middle of both chains: from an exponent of 5 ones to one of 50. */
  method FiftyOnes(t0: array<int>, t1: array<int>, t2: array<int>, ghost x: int)
    requires t0.Length == t1.Length == t2.Length == 10 && t0 != t1 && t0 != t2 && t1 != t2
    requires Holds(t0, x, Pow2(5) - 1)
    modifies t0, t1, t2
    ensures Holds(t0, x, Pow2(50) - 1)
  {
    hide Holds;
    hide Pow2;
    Append(t0, t1, t0, t0, 5, x, 5);
    Append(t1, t1, t0, t0, 10, x, 10);
    Append(t1, t2, t1, t1, 20, x, 20);
    Append(t0, t1, t1, t0, 10, x, 40);
  }

  method TwoHundredFiftyOnes(t0: array<int>, t1: array<int>, t2: array<int>, ghost x: int)
    requires t0.Length == t1.Length == t2.Length == 10 && t0 != t1 && t0 != t2 && t1 != t2
    requires Holds(t0, x, Pow2(50) - 1)
    modifies t0, t1, t2
    ensures Holds(t0, x, Pow2(250) - 1)
  {
    hide Holds;
    hide Pow2;
    Append(t1, t1, t0, t0, 50, x, 50);
    Append(t1, t2, t1, t1, 100, x, 100);
    Append(t0, t1, t1, t0, 50, x, 200);
  }

  /** out = z^(P - 2), the inverse of z when z is not 0 modulo P; out may be z. */
  method FeInvert(out: array<int>, z: array<int>)
    requires out.Length == z.Length == 10 && Range(z[..], 66)
    modifies out
    ensures Holds(out, old(Val(z[..])), P - 2)
  {
    var t0, t1, t2, t3 := new int[10], new int[10], new int[10], new int[10];
    InvertWith(t0, t1, t2, t3, out, z);
  }

  method InvertWith(t0: array<int>, t1: array<int>, t2: array<int>, t3: array<int>, out: array<int>, z: array<int>)
    requires t0.Length == t1.Length == t2.Length == t3.Length == out.Length == z.Length == 10 && Range(z[..], 66)
    requires t0 != t1 && t0 != t2 && t0 != t3 && t1 != t2 && t1 != t3 && t2 != t3 && z != t0 && z != t1
    modifies t0, t1, t2, t3, out
    ensures Holds(out, old(Val(z[..])), P - 2)
  {
    hide Range;
    hide Val;
    hide IsPower;
    hide Holds;
    hide Pow2;
    ghost var x := Val(z[..]);
    StartInvert(t0, t1, t2, z);
    ExponentOfInverse();
    PowersOfTwo();
    FiftyOnes(t1, t2, t3, x);
    TwoHundredFiftyOnes(t1, t2, t3, x);
    SquareTimes(t1, t1, 5, x, Pow2(250) - 1);
    Multiply(out, t1, t0, x, 0x20 * (Pow2(250) - 1), 11);
  }

  /** out = z^((P - 5) / 8); out may be z. */
  method FePow22523(out: array<int>, z: array<int>)
    requires out.Length == z.Length == 10 && Range(z[..], 66)
    modifies out
    ensures Holds(out, old(Val(z[..])), (P - 5) / 8)
  {
    var t0, t1, t2 := new int[10], new int[10], new int[10];
    PowWith(t0, t1, t2, out, z);
  }

  method PowWith(t0: array<int>, t1: array<int>, t2: array<int>, out: array<int>, z: array<int>)
    requires t0.Length == t1.Length == t2.Length == out.Length == z.Length == 10 && Range(z[..], 66)
    requires t0 != t1 && t0 != t2 && t1 != t2 && z != t0 && z != t1 && z != t2
    modifies t0, t1, t2, out
    ensures Holds(out, old(Val(z[..])), (P - 5) / 8)
  {
    hide Range;
    hide Val;
    hide IsPower;
    hide Holds;
    hide Pow2;
    ghost var x := Val(z[..]);
    StartPow(t0, t1, z);
    ExponentOfInverse();
    PowersOfTwo();
    FiftyOnes(t0, t1, t2, x);
    TwoHundredFiftyOnes(t0, t1, t2, x);
    SquareTimes(t0, t0, 2, x, Pow2(250) - 1);
    Multiply(out, t0, z, x, 4 * (Pow2(250) - 1), 1);
  }

  /** With Fermat's little theorem for z as hypothesis, what FeInvert computes is the inverse of z. */
  lemma InverseByFermat(z: int, v: int)
    requires Cong(Pow(z, P - 1), 1) && IsPower(v, z, P - 2)
    ensures Cong(z * v, 1)
  {
    CongMul(z, v, z, Pow(z, P - 2));
  }
}
