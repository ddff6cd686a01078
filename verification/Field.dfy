/**
  Field elements modulo P = 2^255 - 19: ten signed limbs of alternately 26 and 25 bits in an
  array of int32, products in int64 variables.
*/
module Field {
  import opened Bits

  const P := 0x7fffffff_ffffffff_ffffffff_ffffffff_ffffffff_ffffffff_ffffffff_ffffffed
  const E := 0x400_0000 // 2^26
  const O := 0x200_0000 // 2^25

  /** Value of ten limbs with weights 1, 2^26, 2^51, 2^77, ..., 2^230. */
  function V10(h0: int, h1: int, h2: int, h3: int, h4: int, h5: int, h6: int, h7: int, h8: int, h9: int): int {
    h0 + E * (h1 + O * (h2 + E * (h3 + O * (h4 + E * (h5 + O * (h6 + E * (h7 + O * (h8 + E * h9))))))))
  }

  function Val(s: seq<int>): int
    requires |s| == 10
  {
    V10(s[0], s[1], s[2], s[3], s[4], s[5], s[6], s[7], s[8], s[9])
  }

  /** Even limbs within n/20 of 2^25 and odd limbs within n/20 of 2^24: n = 22 stands for the factor 1.1. */
  ghost predicate Range(s: seq<int>, n: int) {
    && |s| == 10
    && In(20 * s[0], n * O) && In(40 * s[1], n * O) && In(20 * s[2], n * O) && In(40 * s[3], n * O)
    && In(20 * s[4], n * O) && In(40 * s[5], n * O) && In(20 * s[6], n * O) && In(40 * s[7], n * O)
    && In(20 * s[8], n * O) && In(40 * s[9], n * O)
  }

  lemma Wider(s: seq<int>, m: nat, n: nat)
    requires Range(s, m) && m <= n
    ensures Range(s, n)
  {
  }

  predicate Cong(a: int, b: int) {
    a % P == b % P
  }

  lemma CongShift(a: int, b: int, k: int)
    requires a == b - k * P
    ensures Cong(a, b)
  {
    var q, r := b / P, b % P;
    assert (q - k) * P == q * P - k * P;
    ModUnique(a, P, q - k, r);
  }

  // ---------------------------------------------------------------------------------------
  // Carrying
  // ---------------------------------------------------------------------------------------

  /** Moves the excess of a limb of base m, rounded to nearest, into the next limb. */
  method CarryRound(x: int, y: int, m: int, ghost c: int) returns (x': int, y': int)
    requires (m == E || m == O) && 0 <= c <= 0x80_0000_0000_0000 && In(x, c * m) && In(x, 0x5400_0000_0000_0000)
    requires In(y, 0x5400_0000_0000_0000)
    ensures x' + m * y' == x + m * y && In(2 * x', m) && In(y' - y, c + 1)
  {
    var carry := Int64(x + m / 2) / m;
    y' := Int64(y + carry);
    x' := Int64(x - Int64(carry * m));
  }

  /** The first four rounds of carries, in two chains. */
  method CombineFirst(g0: int, g1: int, g2: int, g3: int, g4: int, g5: int, g6: int, g7: int, g8: int)
    returns (h0: int, h1: int, h2: int, h3: int, h4: int, h5: int, h6: int, h7: int, h8: int)
    requires In(g0, 0x5000_0000_0000_0000) && In(g1, 0x5000_0000_0000_0000) && In(g2, 0x5000_0000_0000_0000)
    requires In(g3, 0x5000_0000_0000_0000) && In(g4, 0x5000_0000_0000_0000) && In(g5, 0x5000_0000_0000_0000)
    requires In(g6, 0x5000_0000_0000_0000) && In(g7, 0x5000_0000_0000_0000) && In(g8, 0x5000_0000_0000_0000)
    ensures h0 + E * (h1 + O * (h2 + E * (h3 + O * h4))) + E * O * E * O * E * (h5 + O * (h6 + E * (h7 + O * h8)))
         == g0 + E * (g1 + O * (g2 + E * (g3 + O * g4))) + E * O * E * O * E * (g5 + O * (g6 + E * (g7 + O * g8)))
    ensures In(2 * h0, E) && In(2 * h1, O) && In(2 * h2, E) && In(2 * h3, O) && In(h4, 0x40_0000_0000)
    ensures In(2 * h5, O) && In(2 * h6, E) && In(2 * h7, O) && In(h8, 0x5100_0000_0000_0000)
  {
    h0, h1, h2, h3, h4, h5, h6, h7, h8 := g0, g1, g2, g3, g4, g5, g6, g7, g8;
    h0, h1 := CarryRound(h0, h1, E, 0x18_0000_0000);
    h4, h5 := CarryRound(h4, h5, E, 0x18_0000_0000);
    h1, h2 := CarryRound(h1, h2, O, 0x30_0000_1000);
    h5, h6 := CarryRound(h5, h6, O, 0x30_0000_1000);
    h2, h3 := CarryRound(h2, h3, E, 0x18_0001_0000);
    h6, h7 := CarryRound(h6, h7, E, 0x18_0001_0000);
    h3, h4 := CarryRound(h3, h4, O, 0x30_0000_1000);
    h7, h8 := CarryRound(h7, h8, O, 0x30_0000_1000);
  }

  /** The remaining rounds; the carry out of the top limb comes back at the bottom, 19 times. */
  method CombineLast(g0: int, g1: int, g2: int, g3: int, g4: int, g5: int, g6: int, g7: int, g8: int, g9: int)
    returns (h0: int, h1: int, h2: int, h3: int, h4: int, h5: int, h6: int, h7: int, h8: int, h9: int, ghost q: int)
    requires In(2 * g0, E) && In(2 * g1, O) && In(2 * g2, E) && In(2 * g3, O) && In(g4, 0x40_0000_0000)
    requires In(2 * g5, O) && In(2 * g6, E) && In(2 * g7, O) && In(g8, 0x5100_0000_0000_0000)
    requires In(g9, 0x5000_0000_0000_0000)
    ensures V10(h0, h1, h2, h3, h4, h5, h6, h7, h8, h9) == V10(g0, g1, g2, g3, g4, g5, g6, g7, g8, g9) - q * P
    ensures In(20 * h0, 22 * O) && In(40 * h1, 22 * O) && In(20 * h2, 22 * O) && In(40 * h3, 22 * O) && In(20 * h4,
      22 * O) && In(40 * h5, 22 * O) && In(20 * h6, 22 * O) && In(40 * h7, 22 * O) && In(20 * h8, 22 * O) && In(40 *
      h9, 22 * O)
  {
    h0, h1, h2, h3, h4, h5, h6, h7, h8, h9 := g0, g1, g2, g3, g4, g5, g6, g7, g8, g9;
    h4, h5 := CarryRound(h4, h5, E, 0x2000);
    h8, h9 := CarryRound(h8, h9, E, 0x18_0001_0000);
    var c9 := Int64(h9 + 0x100_0000) / O;
    h0 := Int64(h0 + Int64(c9 * 19));
    h9 := Int64(h9 - Int64(c9 * O));
    h0, h1 := CarryRound(h0, h1, E, 0x1_8000);
    q := c9;
  }

  method Combine(g0: int, g1: int, g2: int, g3: int, g4: int, g5: int, g6: int, g7: int, g8: int, g9: int)
    returns (h0: int, h1: int, h2: int, h3: int, h4: int, h5: int, h6: int, h7: int, h8: int, h9: int, ghost q: int)
    requires In(g0, 0x5000_0000_0000_0000) && In(g1, 0x5000_0000_0000_0000) && In(g2, 0x5000_0000_0000_0000) &&
      In(g3, 0x5000_0000_0000_0000) && In(g4, 0x5000_0000_0000_0000) && In(g5, 0x5000_0000_0000_0000) && In(g6,
      0x5000_0000_0000_0000) && In(g7, 0x5000_0000_0000_0000) && In(g8, 0x5000_0000_0000_0000) && In(g9,
      0x5000_0000_0000_0000)
    ensures V10(h0, h1, h2, h3, h4, h5, h6, h7, h8, h9) == V10(g0, g1, g2, g3, g4, g5, g6, g7, g8, g9) - q * P
    ensures In(20 * h0, 22 * O) && In(40 * h1, 22 * O) && In(20 * h2, 22 * O) && In(40 * h3, 22 * O) && In(20 * h4,
      22 * O) && In(40 * h5, 22 * O) && In(20 * h6, 22 * O) && In(40 * h7, 22 * O) && In(20 * h8, 22 * O) && In(40 *
      h9, 22 * O)
  {
    h0, h1, h2, h3, h4, h5, h6, h7, h8 := CombineFirst(g0, g1, g2, g3, g4, g5, g6, g7, g8);
    assert V10(h0, h1, h2, h3, h4, h5, h6, h7, h8, g9) == V10(g0, g1, g2, g3, g4, g5, g6, g7, g8, g9);
    h0, h1, h2, h3, h4, h5, h6, h7, h8, h9, q := CombineLast(h0, h1, h2, h3, h4, h5, h6, h7, h8, g9);
  }

  method FeCombine(h: array<int>, g0: int, g1: int, g2: int, g3: int, g4: int, g5: int, g6: int, g7: int, g8: int,
      g9: int)
    requires h.Length == 10
    requires In(g0, 0x5000_0000_0000_0000) && In(g1, 0x5000_0000_0000_0000) && In(g2, 0x5000_0000_0000_0000) &&
      In(g3, 0x5000_0000_0000_0000) && In(g4, 0x5000_0000_0000_0000) && In(g5, 0x5000_0000_0000_0000) && In(g6,
      0x5000_0000_0000_0000) && In(g7, 0x5000_0000_0000_0000) && In(g8, 0x5000_0000_0000_0000) && In(g9,
      0x5000_0000_0000_0000)
    modifies h
    ensures Cong(Val(h[..]), V10(g0, g1, g2, g3, g4, g5, g6, g7, g8, g9)) && Range(h[..], 22)
  {
    var h0, h1, h2, h3, h4, h5, h6, h7, h8, h9;
    ghost var q;
    h0, h1, h2, h3, h4, h5, h6, h7, h8, h9, q := Combine(g0, g1, g2, g3, g4, g5, g6, g7, g8, g9);
    h[0] := Int32(h0);
    h[1] := Int32(h1);
    h[2] := Int32(h2);
    h[3] := Int32(h3);
    h[4] := Int32(h4);
    h[5] := Int32(h5);
    h[6] := Int32(h6);
    h[7] := Int32(h7);
    h[8] := Int32(h8);
    h[9] := Int32(h9);
    CongShift(Val(h[..]), V10(g0, g1, g2, g3, g4, g5, g6, g7, g8, g9), q);
  }

  // ---------------------------------------------------------------------------------------
  // Multiplication
  // ---------------------------------------------------------------------------------------

  lemma Distribute(x: int, a0: int, a1: int, a2: int, a3: int, a4: int, a5: int, a6: int, a7: int, a8: int, a9: int)
    ensures x * V10(a0, a1, a2, a3, a4, a5, a6, a7, a8, a9) == V10(x * a0, x * a1, x * a2, x * a3, x * a4, x * a5, x
      * a6, x * a7, x * a8, x * a9)
  {
    var t8 := a8 + E * a9;
    var t7 := a7 + O * t8;
    var t6 := a6 + E * t7;
    var t5 := a5 + O * t6;
    var t4 := a4 + E * t5;
    var t3 := a3 + O * t4;
    var t2 := a2 + E * t3;
    var t1 := a1 + O * t2;
    var t0 := a0 + E * t1;
    assert x * t8 == x * a8 + E * (x * a9);
    assert x * t7 == x * a7 + O * (x * t8);
    assert x * t6 == x * a6 + E * (x * t7);
    assert x * t5 == x * a5 + O * (x * t6);
    assert x * t4 == x * a4 + E * (x * t5);
    assert x * t3 == x * a3 + O * (x * t4);
    assert x * t2 == x * a2 + E * (x * t3);
    assert x * t1 == x * a1 + O * (x * t2);
    assert x * t0 == x * a0 + E * (x * t1);
  }

  /** Row i of the product: 2^w x G, where w is the weight of limb i, reduced by 2^255 = P + 19. */
  lemma Row0(x: int, g0: int, g1: int, g2: int, g3: int, g4: int, g5: int, g6: int, g7: int, g8: int, g9: int)
    returns (q: int)
    ensures (0x1 * x) * V10(g0, g1, g2, g3, g4, g5, g6, g7, g8, g9) == V10(x * g0, x * g1, x * g2, x * g3, x * g4, x
      * g5, x * g6, x * g7, x * g8, x * g9) + q * P
  {
    var k := 0;
    q := x * k;
    Distribute(x, g0, g1, g2, g3, g4, g5, g6, g7, g8, g9);
    var r := V10(g0, g1, g2, g3, g4, g5, g6, g7, g8, g9);
    assert 0x1 * V10(g0, g1, g2, g3, g4, g5, g6, g7, g8, g9) == r + k * P;
    assert (0x1 * x) * V10(g0, g1, g2, g3, g4, g5, g6, g7, g8, g9) == x * (0x1 * V10(g0, g1, g2, g3, g4, g5, g6, g7,
      g8, g9));
    assert x * (r + k * P) == x * r + (x * k) * P;
  }

  lemma Row1(x: int, g0: int, g1: int, g2: int, g3: int, g4: int, g5: int, g6: int, g7: int, g8: int, g9: int)
    returns (q: int)
    ensures (0x4000000 * x) * V10(g0, g1, g2, g3, g4, g5, g6, g7, g8, g9) == V10((2 * x) * (19 * g9), x * g0, (2 *
      x) * g1, x * g2, (2 * x) * g3, x * g4, (2 * x) * g5, x * g6, (2 * x) * g7, x * g8) + q * P
  {
    var k := 0x2 * g9;
    q := x * k;
    Distribute(x, 38 * g9, g0, 2 * g1, g2, 2 * g3, g4, 2 * g5, g6, 2 * g7, g8);
    var r := V10(38 * g9, g0, 2 * g1, g2, 2 * g3, g4, 2 * g5, g6, 2 * g7, g8);
    assert 0x4000000 * V10(g0, g1, g2, g3, g4, g5, g6, g7, g8, g9) == r + k * P;
    assert (0x4000000 * x) * V10(g0, g1, g2, g3, g4, g5, g6, g7, g8, g9) == x * (0x4000000 * V10(g0, g1, g2, g3, g4,
      g5, g6, g7, g8, g9));
    assert x * (r + k * P) == x * r + (x * k) * P;
  }

  lemma Row2(x: int, g0: int, g1: int, g2: int, g3: int, g4: int, g5: int, g6: int, g7: int, g8: int, g9: int)
    returns (q: int)
    ensures (0x8000000000000 * x) * V10(g0, g1, g2, g3, g4, g5, g6, g7, g8, g9) == V10(x * (19 * g8), x * (19 * g9),
      x * g0, x * g1, x * g2, x * g3, x * g4, x * g5, x * g6, x * g7) + q * P
  {
    var k := 0x1 * g8 + 0x4000000 * g9;
    q := x * k;
    Distribute(x, 19 * g8, 19 * g9, g0, g1, g2, g3, g4, g5, g6, g7);
    var r := V10(19 * g8, 19 * g9, g0, g1, g2, g3, g4, g5, g6, g7);
    assert 0x8000000000000 * V10(g0, g1, g2, g3, g4, g5, g6, g7, g8, g9) == r + k * P;
    assert (0x8000000000000 * x) * V10(g0, g1, g2, g3, g4, g5, g6, g7, g8, g9) == x * (0x8000000000000 * V10(g0, g1,
      g2, g3, g4, g5, g6, g7, g8, g9));
    assert x * (r + k * P) == x * r + (x * k) * P;
  }

  lemma Row3(x: int, g0: int, g1: int, g2: int, g3: int, g4: int, g5: int, g6: int, g7: int, g8: int, g9: int)
    returns (q: int)
    ensures (0x20000000000000000000 * x) * V10(g0, g1, g2, g3, g4, g5, g6, g7, g8, g9) == V10((2 * x) * (19 * g7), x
      * (19 * g8), (2 * x) * (19 * g9), x * g0, (2 * x) * g1, x * g2, (2 * x) * g3, x * g4, (2 * x) * g5, x * g6) +
      q * P
  {
    var k := 0x2 * g7 + 0x4000000 * g8 + 0x10000000000000 * g9;
    q := x * k;
    Distribute(x, 38 * g7, 19 * g8, 38 * g9, g0, 2 * g1, g2, 2 * g3, g4, 2 * g5, g6);
    var r := V10(38 * g7, 19 * g8, 38 * g9, g0, 2 * g1, g2, 2 * g3, g4, 2 * g5, g6);
    assert 0x20000000000000000000 * V10(g0, g1, g2, g3, g4, g5, g6, g7, g8, g9) == r + k * P;
    assert (0x20000000000000000000 * x) * V10(g0, g1, g2, g3, g4, g5, g6, g7, g8,
      g9) == x * (0x20000000000000000000 * V10(g0, g1, g2, g3, g4, g5, g6, g7, g8, g9));
    assert x * (r + k * P) == x * r + (x * k) * P;
  }

  lemma Row4(x: int, g0: int, g1: int, g2: int, g3: int, g4: int, g5: int, g6: int, g7: int, g8: int, g9: int)
    returns (q: int)
    ensures (0x40000000000000000000000000 * x) * V10(g0, g1, g2, g3, g4, g5, g6, g7, g8, g9) == V10(x * (19 * g6), x
      * (19 * g7), x * (19 * g8), x * (19 * g9), x * g0, x * g1, x * g2, x * g3, x * g4, x * g5) + q * P
  {
    var k := 0x1 * g6 + 0x4000000 * g7 + 0x8000000000000 * g8 + 0x20000000000000000000 * g9;
    q := x * k;
    Distribute(x, 19 * g6, 19 * g7, 19 * g8, 19 * g9, g0, g1, g2, g3, g4, g5);
    var r := V10(19 * g6, 19 * g7, 19 * g8, 19 * g9, g0, g1, g2, g3, g4, g5);
    assert 0x40000000000000000000000000 * V10(g0, g1, g2, g3, g4, g5, g6, g7, g8, g9) == r + k * P;
    assert (0x40000000000000000000000000 * x) * V10(g0, g1, g2, g3, g4, g5, g6, g7, g8,
      g9) == x * (0x40000000000000000000000000 * V10(g0, g1, g2, g3, g4, g5, g6, g7, g8, g9));
    assert x * (r + k * P) == x * r + (x * k) * P;
  }

  lemma Row5(x: int, g0: int, g1: int, g2: int, g3: int, g4: int, g5: int, g6: int, g7: int, g8: int, g9: int)
    returns (q: int)
    ensures (0x100000000000000000000000000000000 * x) * V10(g0, g1, g2, g3, g4, g5, g6, g7, g8, g9) == V10((2 * x) *
      (19 * g5), x * (19 * g6), (2 * x) * (19 * g7), x * (19 * g8), (2 * x) * (19 * g9), x * g0, (2 * x) * g1, x *
      g2, (2 * x) * g3, x * g4) + q * P
  {
    var k := 0x2 * g5 + 0x4000000 * g6 + 0x10000000000000 * g7 + 0x20000000000000000000 * g8 +
      0x80000000000000000000000000 * g9;
    q := x * k;
    Distribute(x, 38 * g5, 19 * g6, 38 * g7, 19 * g8, 38 * g9, g0, 2 * g1, g2, 2 * g3, g4);
    var r := V10(38 * g5, 19 * g6, 38 * g7, 19 * g8, 38 * g9, g0, 2 * g1, g2, 2 * g3, g4);
    assert 0x100000000000000000000000000000000 * V10(g0, g1, g2, g3, g4, g5, g6, g7, g8, g9) == r + k * P;
    assert (0x100000000000000000000000000000000 * x) * V10(g0, g1, g2, g3, g4, g5, g6, g7, g8,
      g9) == x * (0x100000000000000000000000000000000 * V10(g0, g1, g2, g3, g4, g5, g6, g7, g8, g9));
    assert x * (r + k * P) == x * r + (x * k) * P;
  }

  lemma Row6(x: int, g0: int, g1: int, g2: int, g3: int, g4: int, g5: int, g6: int, g7: int, g8: int, g9: int)
    returns (q: int)
    ensures (0x200000000000000000000000000000000000000 * x) * V10(g0, g1, g2, g3, g4, g5, g6, g7, g8, g9) == V10(x *
      (19 * g4), x * (19 * g5), x * (19 * g6), x * (19 * g7), x * (19 * g8), x * (19 * g9), x * g0, x * g1, x * g2,
      x * g3) + q * P
  {
    var k := 0x1 * g4 + 0x4000000 * g5 + 0x8000000000000 * g6 + 0x20000000000000000000 * g7 +
      0x40000000000000000000000000 * g8 + 0x100000000000000000000000000000000 * g9;
    q := x * k;
    Distribute(x, 19 * g4, 19 * g5, 19 * g6, 19 * g7, 19 * g8, 19 * g9, g0, g1, g2, g3);
    var r := V10(19 * g4, 19 * g5, 19 * g6, 19 * g7, 19 * g8, 19 * g9, g0, g1, g2, g3);
    assert 0x200000000000000000000000000000000000000 * V10(g0, g1, g2, g3, g4, g5, g6, g7, g8, g9) == r + k * P;
    assert (0x200000000000000000000000000000000000000 * x) * V10(g0, g1, g2, g3, g4, g5, g6, g7, g8,
      g9) == x * (0x200000000000000000000000000000000000000 * V10(g0, g1, g2, g3, g4, g5, g6, g7, g8, g9));
    assert x * (r + k * P) == x * r + (x * k) * P;
  }

  lemma Row7(x: int, g0: int, g1: int, g2: int, g3: int, g4: int, g5: int, g6: int, g7: int, g8: int, g9: int)
    returns (q: int)
    ensures (0x800000000000000000000000000000000000000000000 * x) * V10(g0, g1, g2, g3, g4, g5, g6, g7, g8, g9) ==
      V10((2 * x) * (19 * g3), x * (19 * g4), (2 * x) * (19 * g5), x * (19 * g6), (2 * x) * (19 * g7), x * (19 *
      g8), (2 * x) * (19 * g9), x * g0, (2 * x) * g1, x * g2) + q * P
  {
    var k := 0x2 * g3 + 0x4000000 * g4 + 0x10000000000000 * g5 + 0x20000000000000000000 * g6 +
      0x80000000000000000000000000 * g7 + 0x100000000000000000000000000000000 * g8 +
      0x400000000000000000000000000000000000000 * g9;
    q := x * k;
    Distribute(x, 38 * g3, 19 * g4, 38 * g5, 19 * g6, 38 * g7, 19 * g8, 38 * g9, g0, 2 * g1, g2);
    var r := V10(38 * g3, 19 * g4, 38 * g5, 19 * g6, 38 * g7, 19 * g8, 38 * g9, g0, 2 * g1, g2);
    assert 0x800000000000000000000000000000000000000000000 * V10(g0, g1, g2, g3, g4, g5, g6, g7, g8, g9) == r + k * P;
    assert (0x800000000000000000000000000000000000000000000 * x) * V10(g0, g1, g2, g3, g4, g5, g6, g7, g8,
      g9) == x * (0x800000000000000000000000000000000000000000000 * V10(g0, g1, g2, g3, g4, g5, g6, g7, g8, g9));
    assert x * (r + k * P) == x * r + (x * k) * P;
  }

  lemma Row8(x: int, g0: int, g1: int, g2: int, g3: int, g4: int, g5: int, g6: int, g7: int, g8: int, g9: int)
    returns (q: int)
    ensures (0x1000000000000000000000000000000000000000000000000000 * x) * V10(g0, g1, g2, g3, g4, g5, g6, g7, g8,
      g9) == V10(x * (19 * g2), x * (19 * g3), x * (19 * g4), x * (19 * g5), x * (19 * g6), x * (19 * g7), x * (19 *
      g8), x * (19 * g9), x * g0, x * g1) + q * P
  {
    var k := 0x1 * g2 + 0x4000000 * g3 + 0x8000000000000 * g4 + 0x20000000000000000000 * g5 +
      0x40000000000000000000000000 * g6 + 0x100000000000000000000000000000000 * g7 +
      0x200000000000000000000000000000000000000 * g8 + 0x800000000000000000000000000000000000000000000 * g9;
    q := x * k;
    Distribute(x, 19 * g2, 19 * g3, 19 * g4, 19 * g5, 19 * g6, 19 * g7, 19 * g8, 19 * g9, g0, g1);
    var r := V10(19 * g2, 19 * g3, 19 * g4, 19 * g5, 19 * g6, 19 * g7, 19 * g8, 19 * g9, g0, g1);
    assert 0x1000000000000000000000000000000000000000000000000000 * V10(g0, g1, g2, g3, g4, g5, g6, g7, g8,
      g9) == r + k * P;
    assert (0x1000000000000000000000000000000000000000000000000000 * x) * V10(g0, g1, g2, g3, g4, g5, g6, g7, g8,
      g9) == x * (0x1000000000000000000000000000000000000000000000000000 * V10(g0, g1, g2, g3, g4, g5, g6, g7, g8, g9));
    assert x * (r + k * P) == x * r + (x * k) * P;
  }

  lemma Row9(x: int, g0: int, g1: int, g2: int, g3: int, g4: int, g5: int, g6: int, g7: int, g8: int, g9: int)
    returns (q: int)
    ensures (0x4000000000000000000000000000000000000000000000000000000000 * x) * V10(g0, g1, g2, g3, g4, g5, g6, g7,
      g8, g9) == V10((2 * x) * (19 * g1), x * (19 * g2), (2 * x) * (19 * g3), x * (19 * g4), (2 * x) * (19 * g5), x
      * (19 * g6), (2 * x) * (19 * g7), x * (19 * g8), (2 * x) * (19 * g9), x * g0) + q * P
  {
    var k := 0x2 * g1 + 0x4000000 * g2 + 0x10000000000000 * g3 + 0x20000000000000000000 * g4 +
      0x80000000000000000000000000 * g5 + 0x100000000000000000000000000000000 * g6 +
      0x400000000000000000000000000000000000000 * g7 + 0x800000000000000000000000000000000000000000000 * g8 +
      0x2000000000000000000000000000000000000000000000000000 * g9;
    q := x * k;
    Distribute(x, 38 * g1, 19 * g2, 38 * g3, 19 * g4, 38 * g5, 19 * g6, 38 * g7, 19 * g8, 38 * g9, g0);
    var r := V10(38 * g1, 19 * g2, 38 * g3, 19 * g4, 38 * g5, 19 * g6, 38 * g7, 19 * g8, 38 * g9, g0);
    assert 0x4000000000000000000000000000000000000000000000000000000000 * V10(g0, g1, g2, g3, g4, g5, g6, g7, g8,
      g9) == r + k * P;
    assert (0x4000000000000000000000000000000000000000000000000000000000 * x) * V10(g0, g1, g2, g3, g4, g5, g6, g7,
      g8, g9) == x * (0x4000000000000000000000000000000000000000000000000000000000 * V10(g0, g1, g2, g3, g4, g5, g6,
      g7, g8, g9));
    assert x * (r + k * P) == x * r + (x * k) * P;
  }

  ghost method LowRows(f0: int, f1: int, f2: int, f3: int, f4: int, g0: int, g1: int, g2: int, g3: int, g4: int,
    g5: int,
      g6: int, g7: int, g8: int, g9: int, p0: int, p1: int, p2: int, p3: int, p4: int, p5: int, p6: int, p7: int,
      p8: int, p9: int)
    returns (q: int)
    requires p0 == f0 * g0 + (2 * f1) * (19 * g9) + f2 * (19 * g8) + (2 * f3) * (19 * g7) + f4 * (19 * g6)
    requires p1 == f0 * g1 + f1 * g0 + f2 * (19 * g9) + f3 * (19 * g8) + f4 * (19 * g7)
    requires p2 == f0 * g2 + (2 * f1) * g1 + f2 * g0 + (2 * f3) * (19 * g9) + f4 * (19 * g8)
    requires p3 == f0 * g3 + f1 * g2 + f2 * g1 + f3 * g0 + f4 * (19 * g9)
    requires p4 == f0 * g4 + (2 * f1) * g3 + f2 * g2 + (2 * f3) * g1 + f4 * g0
    requires p5 == f0 * g5 + f1 * g4 + f2 * g3 + f3 * g2 + f4 * g1
    requires p6 == f0 * g6 + (2 * f1) * g5 + f2 * g4 + (2 * f3) * g3 + f4 * g2
    requires p7 == f0 * g7 + f1 * g6 + f2 * g5 + f3 * g4 + f4 * g3
    requires p8 == f0 * g8 + (2 * f1) * g7 + f2 * g6 + (2 * f3) * g5 + f4 * g4
    requires p9 == f0 * g9 + f1 * g8 + f2 * g7 + f3 * g6 + f4 * g5
    ensures (f0 + 0x4000000 * f1 + 0x8000000000000 * f2 + 0x20000000000000000000 * f3 + 0x40000000000000000000000000
      * f4) * V10(g0, g1, g2, g3, g4, g5, g6, g7, g8, g9) == V10(p0, p1, p2, p3, p4, p5, p6, p7, p8, p9) + q * P
  {
    var q0 := Row0(f0, g0, g1, g2, g3, g4, g5, g6, g7, g8, g9);
    var q1 := Row1(f1, g0, g1, g2, g3, g4, g5, g6, g7, g8, g9);
    var q2 := Row2(f2, g0, g1, g2, g3, g4, g5, g6, g7, g8, g9);
    var q3 := Row3(f3, g0, g1, g2, g3, g4, g5, g6, g7, g8, g9);
    var q4 := Row4(f4, g0, g1, g2, g3, g4, g5, g6, g7, g8, g9);
    q := q0 + q1 + q2 + q3 + q4;
    var G := V10(g0, g1, g2, g3, g4, g5, g6, g7, g8, g9);
    Distribute5(f0, 0x4000000 * f1, 0x8000000000000 * f2, 0x20000000000000000000 * f3,
      0x40000000000000000000000000 * f4, G);
  }

  ghost method HighRows(f5: int, f6: int, f7: int, f8: int, f9: int, g0: int, g1: int, g2: int, g3: int, g4: int,
    g5: int,
      g6: int, g7: int, g8: int, g9: int, p0: int, p1: int, p2: int, p3: int, p4: int, p5: int, p6: int, p7: int,
      p8: int, p9: int)
    returns (q: int)
    requires p0 == (2 * f5) * (19 * g5) + f6 * (19 * g4) + (2 * f7) * (19 * g3) + f8 * (19 * g2) + (2 * f9) * (19 * g1)
    requires p1 == f5 * (19 * g6) + f6 * (19 * g5) + f7 * (19 * g4) + f8 * (19 * g3) + f9 * (19 * g2)
    requires p2 == (2 * f5) * (19 * g7) + f6 * (19 * g6) + (2 * f7) * (19 * g5) + f8 * (19 * g4) + (2 * f9) * (19 * g3)
    requires p3 == f5 * (19 * g8) + f6 * (19 * g7) + f7 * (19 * g6) + f8 * (19 * g5) + f9 * (19 * g4)
    requires p4 == (2 * f5) * (19 * g9) + f6 * (19 * g8) + (2 * f7) * (19 * g7) + f8 * (19 * g6) + (2 * f9) * (19 * g5)
    requires p5 == f5 * g0 + f6 * (19 * g9) + f7 * (19 * g8) + f8 * (19 * g7) + f9 * (19 * g6)
    requires p6 == (2 * f5) * g1 + f6 * g0 + (2 * f7) * (19 * g9) + f8 * (19 * g8) + (2 * f9) * (19 * g7)
    requires p7 == f5 * g2 + f6 * g1 + f7 * g0 + f8 * (19 * g9) + f9 * (19 * g8)
    requires p8 == (2 * f5) * g3 + f6 * g2 + (2 * f7) * g1 + f8 * g0 + (2 * f9) * (19 * g9)
    requires p9 == f5 * g4 + f6 * g3 + f7 * g2 + f8 * g1 + f9 * g0
    ensures (0x100000000000000000000000000000000 * f5 + 0x200000000000000000000000000000000000000 * f6 +
      0x800000000000000000000000000000000000000000000 * f7 + 0x1000000000000000000000000000000000000000000000000000
      * f8 + 0x4000000000000000000000000000000000000000000000000000000000 * f9) * V10(g0, g1, g2, g3, g4, g5, g6,
      g7, g8, g9) == V10(p0, p1, p2, p3, p4, p5, p6, p7, p8, p9) + q * P
  {
    var q5 := Row5(f5, g0, g1, g2, g3, g4, g5, g6, g7, g8, g9);
    var q6 := Row6(f6, g0, g1, g2, g3, g4, g5, g6, g7, g8, g9);
    var q7 := Row7(f7, g0, g1, g2, g3, g4, g5, g6, g7, g8, g9);
    var q8 := Row8(f8, g0, g1, g2, g3, g4, g5, g6, g7, g8, g9);
    var q9 := Row9(f9, g0, g1, g2, g3, g4, g5, g6, g7, g8, g9);
    q := q5 + q6 + q7 + q8 + q9;
    var G := V10(g0, g1, g2, g3, g4, g5, g6, g7, g8, g9);
    Distribute5(0x100000000000000000000000000000000 * f5, 0x200000000000000000000000000000000000000 * f6,
      0x800000000000000000000000000000000000000000000 * f7,
      0x1000000000000000000000000000000000000000000000000000 * f8,
      0x4000000000000000000000000000000000000000000000000000000000 * f9, G);
  }

  lemma Distribute5(a: int, b: int, c: int, d: int, e: int, x: int)
    ensures (a + b + c + d + e) * x == a * x + b * x + c * x + d * x + e * x
  {
  }

  /** 1.65 times 2^26 and 1.65 times 2^25. */
  const EVEN := 110729625
  const ODD := 55364812
  /** Bounds the sum of five products of an operand up to EVEN and one up to 19 EVEN < 2^31. */
  const HALF := 0x1040_0000_0000_0000

  lemma ProductBound(x: int, y: int, m: int, n: int)
    requires In(x, m) && In(y, n)
    ensures In(x * y, m * n)
  {
    var a, b := Abs(x), Abs(y);
    assert Abs(x * y) == a * b;
    MulMono(a, m, b);
    MulMono(b, n, m);
  }

  /** Five products of int32 operands added in int64. */
  method Dot5(x0: int, y0: int, x1: int, y1: int, x2: int, y2: int, x3: int, y3: int, x4: int, y4: int)
    returns (s: int)
    requires In(x0, EVEN) && In(x1, EVEN) && In(x2, EVEN) && In(x3, EVEN) && In(x4, EVEN)
    requires In(y0, 19 * EVEN) && In(y1, 19 * EVEN) && In(y2, 19 * EVEN) && In(y3, 19 * EVEN) && In(y4, 19 * EVEN)
    ensures s == x0 * y0 + x1 * y1 + x2 * y2 + x3 * y3 + x4 * y4 && In(s, HALF)
  {
    ProductBound(x0, y0, EVEN, 19 * EVEN);
    ProductBound(x1, y1, EVEN, 19 * EVEN);
    ProductBound(x2, y2, EVEN, 19 * EVEN);
    ProductBound(x3, y3, EVEN, 19 * EVEN);
    ProductBound(x4, y4, EVEN, 19 * EVEN);
    s := Int64(Int64(Int64(Int64(Int32(x0) * Int32(y0) + Int32(x1) * Int32(y1)) + Int32(x2) * Int32(y2)) +
      Int32(x3) * Int32(y3)) + Int32(x4) * Int32(y4));
  }

  /** The first five terms of each column of the product. */
  method LowColumns(f0: int, f1: int, f2: int, f3: int, f4: int, g0: int, g1: int, g2: int, g3: int, g4: int, g5:
      int, g6: int, g7: int, g8: int, g9: int)
    returns (p0: int, p1: int, p2: int, p3: int, p4: int, p5: int, p6: int, p7: int, p8: int, p9: int, ghost q: int)
    requires In(f0, EVEN) && In(f1, ODD) && In(f2, EVEN) && In(f3, ODD) && In(f4, EVEN)
    requires In(g0, EVEN) && In(g1, ODD) && In(g2, EVEN) && In(g3, ODD) && In(g4, EVEN) && In(g5, ODD) && In(g6,
      EVEN) && In(g7, ODD) && In(g8, EVEN) && In(g9, ODD)
    ensures (f0 + 0x4000000 * f1 + 0x8000000000000 * f2 + 0x20000000000000000000 * f3 + 0x40000000000000000000000000
      * f4) * V10(g0, g1, g2, g3, g4, g5, g6, g7, g8, g9) == V10(p0, p1, p2, p3, p4, p5, p6, p7, p8, p9) + q * P
    ensures In(p0, HALF) && In(p1, HALF) && In(p2, HALF) && In(p3, HALF) && In(p4, HALF) && In(p5, HALF) && In(p6,
      HALF) && In(p7, HALF) && In(p8, HALF) && In(p9, HALF)
  {
    p0 := Dot5(f0, g0, 2 * f1, 19 * g9, f2, 19 * g8, 2 * f3, 19 * g7, f4, 19 * g6);
    p1 := Dot5(f0, g1, f1, g0, f2, 19 * g9, f3, 19 * g8, f4, 19 * g7);
    p2 := Dot5(f0, g2, 2 * f1, g1, f2, g0, 2 * f3, 19 * g9, f4, 19 * g8);
    p3 := Dot5(f0, g3, f1, g2, f2, g1, f3, g0, f4, 19 * g9);
    p4 := Dot5(f0, g4, 2 * f1, g3, f2, g2, 2 * f3, g1, f4, g0);
    p5 := Dot5(f0, g5, f1, g4, f2, g3, f3, g2, f4, g1);
    p6 := Dot5(f0, g6, 2 * f1, g5, f2, g4, 2 * f3, g3, f4, g2);
    p7 := Dot5(f0, g7, f1, g6, f2, g5, f3, g4, f4, g3);
    p8 := Dot5(f0, g8, 2 * f1, g7, f2, g6, 2 * f3, g5, f4, g4);
    p9 := Dot5(f0, g9, f1, g8, f2, g7, f3, g6, f4, g5);
    q := LowRows(f0, f1, f2, f3, f4, g0, g1, g2, g3, g4, g5, g6, g7, g8, g9, p0, p1, p2, p3, p4, p5, p6, p7, p8,
      p9);
  }

  /** The last five terms of each column of the product. */
  method HighColumns(f5: int, f6: int, f7: int, f8: int, f9: int, g0: int, g1: int, g2: int, g3: int, g4: int, g5:
      int, g6: int, g7: int, g8: int, g9: int)
    returns (p0: int, p1: int, p2: int, p3: int, p4: int, p5: int, p6: int, p7: int, p8: int, p9: int, ghost q: int)
    requires In(f5, ODD) && In(f6, EVEN) && In(f7, ODD) && In(f8, EVEN) && In(f9, ODD)
    requires In(g0, EVEN) && In(g1, ODD) && In(g2, EVEN) && In(g3, ODD) && In(g4, EVEN) && In(g5, ODD) && In(g6,
      EVEN) && In(g7, ODD) && In(g8, EVEN) && In(g9, ODD)
    ensures (0x100000000000000000000000000000000 * f5 + 0x200000000000000000000000000000000000000 * f6 +
      0x800000000000000000000000000000000000000000000 * f7 + 0x1000000000000000000000000000000000000000000000000000
      * f8 + 0x4000000000000000000000000000000000000000000000000000000000 * f9) * V10(g0, g1, g2, g3, g4, g5, g6,
      g7, g8, g9) == V10(p0, p1, p2, p3, p4, p5, p6, p7, p8, p9) + q * P
    ensures In(p0, HALF) && In(p1, HALF) && In(p2, HALF) && In(p3, HALF) && In(p4, HALF) && In(p5, HALF) && In(p6,
      HALF) && In(p7, HALF) && In(p8, HALF) && In(p9, HALF)
  {
    p0 := Dot5(2 * f5, 19 * g5, f6, 19 * g4, 2 * f7, 19 * g3, f8, 19 * g2, 2 * f9, 19 * g1);
    p1 := Dot5(f5, 19 * g6, f6, 19 * g5, f7, 19 * g4, f8, 19 * g3, f9, 19 * g2);
    p2 := Dot5(2 * f5, 19 * g7, f6, 19 * g6, 2 * f7, 19 * g5, f8, 19 * g4, 2 * f9, 19 * g3);
    p3 := Dot5(f5, 19 * g8, f6, 19 * g7, f7, 19 * g6, f8, 19 * g5, f9, 19 * g4);
    p4 := Dot5(2 * f5, 19 * g9, f6, 19 * g8, 2 * f7, 19 * g7, f8, 19 * g6, 2 * f9, 19 * g5);
    p5 := Dot5(f5, g0, f6, 19 * g9, f7, 19 * g8, f8, 19 * g7, f9, 19 * g6);
    p6 := Dot5(2 * f5, g1, f6, g0, 2 * f7, 19 * g9, f8, 19 * g8, 2 * f9, 19 * g7);
    p7 := Dot5(f5, g2, f6, g1, f7, g0, f8, 19 * g9, f9, 19 * g8);
    p8 := Dot5(2 * f5, g3, f6, g2, 2 * f7, g1, f8, g0, 2 * f9, 19 * g9);
    p9 := Dot5(f5, g4, f6, g3, f7, g2, f8, g1, f9, g0);
    q := HighRows(f5, f6, f7, f8, f9, g0, g1, g2, g3, g4, g5, g6, g7, g8, g9, p0, p1, p2, p3, p4, p5, p6, p7, p8,
      p9);
  }

  /** The low and the high rows of a product make the product. */
  lemma JoinRows(F: int, low: int, high: int, G: int, h0: int, h1: int, h2: int, h3: int, h4: int, h5: int, h6: int,
      h7: int, h8: int, h9: int, p0: int, p1: int, p2: int, p3: int, p4: int, p5: int, p6: int, p7: int, p8: int,
      p9: int, q: int, r: int)
    requires F == low + high
    requires low * G == V10(h0, h1, h2, h3, h4, h5, h6, h7, h8, h9) + q * P
    requires high * G == V10(p0, p1, p2, p3, p4, p5, p6, p7, p8, p9) + r * P
    ensures F * G == V10(h0 + p0, h1 + p1, h2 + p2, h3 + p3, h4 + p4, h5 + p5, h6 + p6, h7 + p7, h8 + p8,
      h9 + p9) + (q + r) * P
  {
    assert F * G == low * G + high * G;
  }

  /** The ten column sums of f * g. */
  method MulColumns(f: array<int>, g: array<int>)
    returns (h0: int, h1: int, h2: int, h3: int, h4: int, h5: int, h6: int, h7: int, h8: int, h9: int, ghost q: int)
    requires f.Length == g.Length == 10
    requires Range(f[..], 66) && Range(g[..], 66)
    ensures Val(f[..]) * Val(g[..]) == V10(h0, h1, h2, h3, h4, h5, h6, h7, h8, h9) + q * P
    ensures In(h0, 2 * HALF) && In(h1, 2 * HALF) && In(h2, 2 * HALF) && In(h3, 2 * HALF) && In(h4, 2 * HALF) &&
      In(h5, 2 * HALF) && In(h6, 2 * HALF) && In(h7, 2 * HALF) && In(h8, 2 * HALF) && In(h9, 2 * HALF)
  {
    var f0, f1, f2, f3, f4, f5, f6, f7, f8, f9 := f[0], f[1], f[2], f[3], f[4], f[5], f[6], f[7], f[8], f[9];
    var g0, g1, g2, g3, g4, g5, g6, g7, g8, g9 := g[0], g[1], g[2], g[3], g[4], g[5], g[6], g[7], g[8], g[9];
    ghost var r;
    var p0, p1, p2, p3, p4, p5, p6, p7, p8, p9;
    h0, h1, h2, h3, h4, h5, h6, h7, h8, h9, q := LowColumns(f0, f1, f2, f3, f4, g0, g1, g2, g3, g4, g5, g6, g7, g8,
      g9);
    p0, p1, p2, p3, p4, p5, p6, p7, p8, p9, r := HighColumns(f5, f6, f7, f8, f9, g0, g1, g2, g3, g4, g5, g6, g7, g8,
      g9);
    JoinRows(Val(f[..]), f0 + 0x4000000 * f1 + 0x8000000000000 * f2 + 0x20000000000000000000 * f3 +
      0x40000000000000000000000000 * f4,
      0x100000000000000000000000000000000 * f5 + 0x200000000000000000000000000000000000000 * f6 +
        0x800000000000000000000000000000000000000000000 * f7 +
        0x1000000000000000000000000000000000000000000000000000 * f8 +
        0x4000000000000000000000000000000000000000000000000000000000 * f9,
      V10(g0, g1, g2, g3, g4, g5, g6, g7, g8, g9), h0, h1, h2, h3, h4, h5, h6, h7, h8, h9,
      p0, p1, p2, p3, p4, p5, p6, p7, p8, p9, q, r);
    h0 := Int64(h0 + p0);
    h1 := Int64(h1 + p1);
    h2 := Int64(h2 + p2);
    h3 := Int64(h3 + p3);
    h4 := Int64(h4 + p4);
    h5 := Int64(h5 + p5);
    h6 := Int64(h6 + p6);
    h7 := Int64(h7 + p7);
    h8 := Int64(h8 + p8);
    h9 := Int64(h9 + p9);
    q := q + r;
  }

  /** h = f * g; h may be f or g. */
  method FeMul(h: array<int>, f: array<int>, g: array<int>)
    requires h.Length == f.Length == g.Length == 10
    requires Range(f[..], 66) && Range(g[..], 66)
    modifies h
    ensures Cong(Val(h[..]), old(Val(f[..]) * Val(g[..]))) && Range(h[..], 22)
  {
    var h0, h1, h2, h3, h4, h5, h6, h7, h8, h9;
    ghost var q;
    ghost var F, G := Val(f[..]), Val(g[..]);
    h0, h1, h2, h3, h4, h5, h6, h7, h8, h9, q := MulColumns(f, g);
    CongShift(V10(h0, h1, h2, h3, h4, h5, h6, h7, h8, h9), F * G, q);
    FeCombine(h, h0, h1, h2, h3, h4, h5, h6, h7, h8, h9);
  }

  // ---------------------------------------------------------------------------------------
  // Squaring: the terms of each column are those of the product with f_i f_j and f_j f_i merged
  // ---------------------------------------------------------------------------------------

  lemma SquareRow0(f0: int, f1: int, f2: int, f3: int, f4: int, f5: int, f6: int, f7: int, f8: int, f9: int)
    returns (q: int)
    ensures (f0) * V10(f0, 2 * f1, 2 * f2, 2 * f3, 2 * f4, 2 * f5, 2 * f6, 2 * f7, 2 * f8, 2 * f9) == V10(f0 * f0,
      (2 * f0) * f1, (2 * f0) * f2, (2 * f0) * f3, (2 * f0) * f4, (2 * f0) * f5, (2 * f0) * f6, (2 * f0) * f7, (2 *
      f0) * f8, (2 * f0) * f9) + q * P
  {
    q := Row0(f0, f0, 2 * f1, 2 * f2, 2 * f3, 2 * f4, 2 * f5, 2 * f6, 2 * f7, 2 * f8, 2 * f9);
  }

  lemma SquareRow1(f1: int, f2: int, f3: int, f4: int, f5: int, f6: int, f7: int, f8: int, f9: int)
    returns (q: int)
    ensures (0x4000000 * f1) * V10(0, f1, 2 * f2, 2 * f3, 2 * f4, 2 * f5, 2 * f6, 2 * f7, 2 * f8, 2 * f9) == V10((2
      * f1) * (38 * f9), 0, (2 * f1) * f1, (2 * f1) * f2, (2 * f1) * (2 * f3), (2 * f1) * f4, (2 * f1) * (2 * f5),
      (2 * f1) * f6, (2 * f1) * (2 * f7), (2 * f1) * f8) + q * P
  {
    q := Row1(f1, 0, f1, 2 * f2, 2 * f3, 2 * f4, 2 * f5, 2 * f6, 2 * f7, 2 * f8, 2 * f9);
  }

  lemma SquareRow2(f2: int, f3: int, f4: int, f5: int, f6: int, f7: int, f8: int, f9: int)
    returns (q: int)
    ensures (0x8000000000000 * f2) * V10(0, 0, f2, 2 * f3, 2 * f4, 2 * f5, 2 * f6, 2 * f7, 2 * f8, 2 * f9) == V10((2
      * f2) * (19 * f8), f2 * (38 * f9), 0, 0, f2 * f2, (2 * f2) * f3, (2 * f2) * f4, (2 * f2) * f5, (2 * f2) * f6,
      (2 * f2) * f7) + q * P
  {
    q := Row2(f2, 0, 0, f2, 2 * f3, 2 * f4, 2 * f5, 2 * f6, 2 * f7, 2 * f8, 2 * f9);
  }

  lemma SquareRow3(f3: int, f4: int, f5: int, f6: int, f7: int, f8: int, f9: int)
    returns (q: int)
    ensures (0x20000000000000000000 * f3) * V10(0, 0, 0, f3, 2 * f4, 2 * f5, 2 * f6, 2 * f7, 2 * f8, 2 * f9) ==
      V10((2 * f3) * (38 * f7), (2 * f3) * (19 * f8), (2 * f3) * (38 * f9), 0, 0, 0, (2 * f3) * f3, (2 * f3) * f4,
      (2 * f3) * (2 * f5), (2 * f3) * f6) + q * P
  {
    q := Row3(f3, 0, 0, 0, f3, 2 * f4, 2 * f5, 2 * f6, 2 * f7, 2 * f8, 2 * f9);
  }

  lemma SquareRow4(f4: int, f5: int, f6: int, f7: int, f8: int, f9: int)
    returns (q: int)
    ensures (0x40000000000000000000000000 * f4) * V10(0, 0, 0, 0, f4, 2 * f5, 2 * f6, 2 * f7, 2 * f8, 2 * f9) ==
      V10((2 * f4) * (19 * f6), f4 * (38 * f7), (2 * f4) * (19 * f8), f4 * (38 * f9), 0, 0, 0, 0, f4 * f4, (2 * f4)
      * f5) + q * P
  {
    q := Row4(f4, 0, 0, 0, 0, f4, 2 * f5, 2 * f6, 2 * f7, 2 * f8, 2 * f9);
  }

  lemma SquareRow5(f5: int, f6: int, f7: int, f8: int, f9: int)
    returns (q: int)
    ensures (0x100000000000000000000000000000000 * f5) * V10(0, 0, 0, 0, 0, f5, 2 * f6, 2 * f7, 2 * f8, 2 * f9) ==
      V10(f5 * (38 * f5), (2 * f5) * (19 * f6), (2 * f5) * (38 * f7), (2 * f5) * (19 * f8), (2 * f5) * (38 * f9), 0,
      0, 0, 0, 0) + q * P
  {
    q := Row5(f5, 0, 0, 0, 0, 0, f5, 2 * f6, 2 * f7, 2 * f8, 2 * f9);
  }

  lemma SquareRow6(f6: int, f7: int, f8: int, f9: int)
    returns (q: int)
    ensures (0x200000000000000000000000000000000000000 * f6) * V10(0, 0, 0, 0, 0, 0, f6, 2 * f7, 2 * f8, 2 * f9) ==
      V10(0, 0, f6 * (19 * f6), f6 * (38 * f7), (2 * f6) * (19 * f8), f6 * (38 * f9), 0, 0, 0, 0) + q * P
  {
    q := Row6(f6, 0, 0, 0, 0, 0, 0, f6, 2 * f7, 2 * f8, 2 * f9);
  }

  lemma SquareRow7(f7: int, f8: int, f9: int)
    returns (q: int)
    ensures (0x800000000000000000000000000000000000000000000 * f7) * V10(0, 0, 0, 0, 0, 0, 0, f7, 2 * f8, 2 * f9) ==
      V10(0, 0, 0, 0, f7 * (38 * f7), (2 * f7) * (19 * f8), (2 * f7) * (38 * f9), 0, 0, 0) + q * P
  {
    q := Row7(f7, 0, 0, 0, 0, 0, 0, 0, f7, 2 * f8, 2 * f9);
  }

  lemma SquareRow8(f8: int, f9: int)
    returns (q: int)
    ensures (0x1000000000000000000000000000000000000000000000000000 * f8) * V10(0, 0, 0, 0, 0, 0, 0, 0, f8, 2 * f9)
      == V10(0, 0, 0, 0, 0, 0, f8 * (19 * f8), f8 * (38 * f9), 0, 0) + q * P
  {
    q := Row8(f8, 0, 0, 0, 0, 0, 0, 0, 0, f8, 2 * f9);
  }

  lemma SquareRow9(f9: int)
    returns (q: int)
    ensures (0x4000000000000000000000000000000000000000000000000000000000 * f9) * V10(0, 0, 0, 0, 0, 0, 0, 0, 0, f9)
      == V10(0, 0, 0, 0, 0, 0, 0, 0, f9 * (38 * f9), 0) + q * P
  {
    q := Row9(f9, 0, 0, 0, 0, 0, 0, 0, 0, 0, f9);
  }

  ghost method SquareLowRows(f0: int, f1: int, f2: int, f3: int, f4: int, f5: int, f6: int, f7: int, f8: int,
    f9: int, p0:
      int, p1: int, p2: int, p3: int, p4: int, p5: int, p6: int, p7: int, p8: int, p9: int)
    returns (q: int)
    requires p0 == f0 * f0 + (2 * f1) * (38 * f9) + (2 * f2) * (19 * f8)
    requires p1 == (2 * f0) * f1 + f2 * (38 * f9)
    requires p2 == (2 * f0) * f2 + (2 * f1) * f1
    requires p3 == (2 * f0) * f3 + (2 * f1) * f2
    requires p4 == (2 * f0) * f4 + (2 * f1) * (2 * f3) + f2 * f2
    requires p5 == (2 * f0) * f5 + (2 * f1) * f4 + (2 * f2) * f3
    requires p6 == (2 * f0) * f6 + (2 * f1) * (2 * f5) + (2 * f2) * f4
    requires p7 == (2 * f0) * f7 + (2 * f1) * f6 + (2 * f2) * f5
    requires p8 == (2 * f0) * f8 + (2 * f1) * (2 * f7) + (2 * f2) * f6
    requires p9 == (2 * f0) * f9 + (2 * f1) * f8 + (2 * f2) * f7
    ensures (f0) * V10(f0, 2 * f1, 2 * f2, 2 * f3, 2 * f4, 2 * f5, 2 * f6, 2 * f7, 2 * f8, 2 * f9) + (0x4000000 *
      f1) * V10(0, f1, 2 * f2, 2 * f3, 2 * f4, 2 * f5, 2 * f6, 2 * f7, 2 * f8, 2 * f9) + (0x8000000000000 * f2) *
      V10(0, 0, f2, 2 * f3, 2 * f4, 2 * f5, 2 * f6, 2 * f7, 2 * f8, 2 * f9) == V10(p0, p1, p2, p3, p4, p5, p6, p7,
      p8, p9) + q * P
  {
    var q0 := SquareRow0(f0, f1, f2, f3, f4, f5, f6, f7, f8, f9);
    var q1 := SquareRow1(f1, f2, f3, f4, f5, f6, f7, f8, f9);
    var q2 := SquareRow2(f2, f3, f4, f5, f6, f7, f8, f9);
    q := q0 + q1 + q2;
  }

  ghost method SquareHighRows(f3: int, f4: int, f5: int, f6: int, f7: int, f8: int, f9: int, p0: int, p1: int,
    p2: int, p3:
      int, p4: int, p5: int, p6: int, p7: int, p8: int, p9: int)
    returns (q: int)
    requires p0 == (2 * f3) * (38 * f7) + (2 * f4) * (19 * f6) + f5 * (38 * f5)
    requires p1 == (2 * f3) * (19 * f8) + f4 * (38 * f7) + (2 * f5) * (19 * f6)
    requires p2 == (2 * f3) * (38 * f9) + (2 * f4) * (19 * f8) + (2 * f5) * (38 * f7) + f6 * (19 * f6)
    requires p3 == f4 * (38 * f9) + (2 * f5) * (19 * f8) + f6 * (38 * f7)
    requires p4 == (2 * f5) * (38 * f9) + (2 * f6) * (19 * f8) + f7 * (38 * f7)
    requires p5 == f6 * (38 * f9) + (2 * f7) * (19 * f8)
    requires p6 == (2 * f3) * f3 + (2 * f7) * (38 * f9) + f8 * (19 * f8)
    requires p7 == (2 * f3) * f4 + f8 * (38 * f9)
    requires p8 == (2 * f3) * (2 * f5) + f4 * f4 + f9 * (38 * f9)
    requires p9 == (2 * f3) * f6 + (2 * f4) * f5
    ensures (0x20000000000000000000 * f3) * V10(0, 0, 0, f3, 2 * f4, 2 * f5, 2 * f6, 2 * f7, 2 * f8, 2 * f9) +
      (0x40000000000000000000000000 * f4) * V10(0, 0, 0, 0, f4, 2 * f5, 2 * f6, 2 * f7, 2 * f8, 2 * f9) +
      (0x100000000000000000000000000000000 * f5) * V10(0, 0, 0, 0, 0, f5, 2 * f6, 2 * f7, 2 * f8, 2 * f9) +
      (0x200000000000000000000000000000000000000 * f6) * V10(0, 0, 0, 0, 0, 0, f6, 2 * f7, 2 * f8, 2 * f9) +
      (0x800000000000000000000000000000000000000000000 * f7) * V10(0, 0, 0, 0, 0, 0, 0, f7, 2 * f8, 2 * f9) +
      (0x1000000000000000000000000000000000000000000000000000 * f8) * V10(0, 0, 0, 0, 0, 0, 0, 0, f8, 2 * f9) +
      (0x4000000000000000000000000000000000000000000000000000000000 * f9) * V10(0, 0, 0, 0, 0, 0, 0, 0, 0, f9) ==
      V10(p0, p1, p2, p3, p4, p5, p6, p7, p8, p9) + q * P
  {
    var q3 := SquareRow3(f3, f4, f5, f6, f7, f8, f9);
    var q4 := SquareRow4(f4, f5, f6, f7, f8, f9);
    var q5 := SquareRow5(f5, f6, f7, f8, f9);
    var q6 := SquareRow6(f6, f7, f8, f9);
    var q7 := SquareRow7(f7, f8, f9);
    var q8 := SquareRow8(f8, f9);
    var q9 := SquareRow9(f9);
    q := q3 + q4 + q5 + q6 + q7 + q8 + q9;
  }

  /** Bounds a product of an operand up to 2 EVEN and one up to 19 EVEN. */
  const TERM := 0x678_0000_0000_0000

  method Dot2(x0: int, y0: int, x1: int, y1: int)
    returns (s: int)
    requires In(x0, 2 * EVEN) && In(y0, 19 * EVEN) && In(x1, 2 * EVEN) && In(y1, 19 * EVEN)
    ensures s == x0 * y0 + x1 * y1 && In(s, 2 * TERM)
  {
    ProductBound(x0, y0, 2 * EVEN, 19 * EVEN);
    ProductBound(x1, y1, 2 * EVEN, 19 * EVEN);
    s := Int64(Int32(x0) * Int32(y0) + Int32(x1) * Int32(y1));
  }

  method Dot3(x0: int, y0: int, x1: int, y1: int, x2: int, y2: int)
    returns (s: int)
    requires In(x0, 2 * EVEN) && In(y0, 19 * EVEN) && In(x1, 2 * EVEN) && In(y1, 19 * EVEN) && In(x2, 2 * EVEN) &&
      In(y2, 19 * EVEN)
    ensures s == x0 * y0 + x1 * y1 + x2 * y2 && In(s, 3 * TERM)
  {
    ProductBound(x0, y0, 2 * EVEN, 19 * EVEN);
    ProductBound(x1, y1, 2 * EVEN, 19 * EVEN);
    ProductBound(x2, y2, 2 * EVEN, 19 * EVEN);
    s := Int64(Int64(Int32(x0) * Int32(y0) + Int32(x1) * Int32(y1)) + Int32(x2) * Int32(y2));
  }

  method Dot4(x0: int, y0: int, x1: int, y1: int, x2: int, y2: int, x3: int, y3: int)
    returns (s: int)
    requires In(x0, 2 * EVEN) && In(y0, 19 * EVEN) && In(x1, 2 * EVEN) && In(y1, 19 * EVEN) && In(x2, 2 * EVEN) &&
      In(y2, 19 * EVEN) && In(x3, 2 * EVEN) && In(y3, 19 * EVEN)
    ensures s == x0 * y0 + x1 * y1 + x2 * y2 + x3 * y3 && In(s, 4 * TERM)
  {
    ProductBound(x0, y0, 2 * EVEN, 19 * EVEN);
    ProductBound(x1, y1, 2 * EVEN, 19 * EVEN);
    ProductBound(x2, y2, 2 * EVEN, 19 * EVEN);
    ProductBound(x3, y3, 2 * EVEN, 19 * EVEN);
    s := Int64(Int64(Int64(Int32(x0) * Int32(y0) + Int32(x1) * Int32(y1)) + Int32(x2) * Int32(y2)) +
      Int32(x3) * Int32(y3));
  }

  /** The terms of each column of the square whose lower index is at most 2. */
  method SquareLowColumns(f0: int, f1: int, f2: int, f3: int, f4: int, f5: int, f6: int, f7: int, f8: int, f9: int)
    returns (p0: int, p1: int, p2: int, p3: int, p4: int, p5: int, p6: int, p7: int, p8: int, p9: int, ghost q: int)
    requires In(f0, EVEN) && In(f1, ODD) && In(f2, EVEN) && In(f3, ODD) && In(f4, EVEN) && In(f5, ODD) && In(f6,
      EVEN) && In(f7, ODD) && In(f8, EVEN) && In(f9, ODD)
    ensures (f0) * V10(f0, 2 * f1, 2 * f2, 2 * f3, 2 * f4, 2 * f5, 2 * f6, 2 * f7, 2 * f8, 2 * f9) + (0x4000000 *
      f1) * V10(0, f1, 2 * f2, 2 * f3, 2 * f4, 2 * f5, 2 * f6, 2 * f7, 2 * f8, 2 * f9) + (0x8000000000000 * f2) *
      V10(0, 0, f2, 2 * f3, 2 * f4, 2 * f5, 2 * f6, 2 * f7, 2 * f8, 2 * f9) == V10(p0, p1, p2, p3, p4, p5, p6, p7,
      p8, p9) + q * P
    ensures In(p0, 3 * TERM) && In(p1, 2 * TERM) && In(p2, 2 * TERM) && In(p3, 2 * TERM) && In(p4, 3 * TERM) &&
      In(p5, 3 * TERM) && In(p6, 3 * TERM) && In(p7, 3 * TERM) && In(p8, 3 * TERM) && In(p9, 3 * TERM)
  {
    p0 := Dot3(f0, f0, 2 * f1, 38 * f9, 2 * f2, 19 * f8);
    p1 := Dot2(2 * f0, f1, f2, 38 * f9);
    p2 := Dot2(2 * f0, f2, 2 * f1, f1);
    p3 := Dot2(2 * f0, f3, 2 * f1, f2);
    p4 := Dot3(2 * f0, f4, 2 * f1, 2 * f3, f2, f2);
    p5 := Dot3(2 * f0, f5, 2 * f1, f4, 2 * f2, f3);
    p6 := Dot3(2 * f0, f6, 2 * f1, 2 * f5, 2 * f2, f4);
    p7 := Dot3(2 * f0, f7, 2 * f1, f6, 2 * f2, f5);
    p8 := Dot3(2 * f0, f8, 2 * f1, 2 * f7, 2 * f2, f6);
    p9 := Dot3(2 * f0, f9, 2 * f1, f8, 2 * f2, f7);
    q := SquareLowRows(f0, f1, f2, f3, f4, f5, f6, f7, f8, f9, p0, p1, p2, p3, p4, p5, p6, p7, p8, p9);
  }

  /** The terms of each column of the square whose lower index is above 2. */
  method SquareHighColumns(f3: int, f4: int, f5: int, f6: int, f7: int, f8: int, f9: int)
    returns (p0: int, p1: int, p2: int, p3: int, p4: int, p5: int, p6: int, p7: int, p8: int, p9: int, ghost q: int)
    requires In(f3, ODD) && In(f4, EVEN) && In(f5, ODD) && In(f6, EVEN) && In(f7, ODD) && In(f8, EVEN) && In(f9,
      ODD)
    ensures (0x20000000000000000000 * f3) * V10(0, 0, 0, f3, 2 * f4, 2 * f5, 2 * f6, 2 * f7, 2 * f8, 2 * f9) +
      (0x40000000000000000000000000 * f4) * V10(0, 0, 0, 0, f4, 2 * f5, 2 * f6, 2 * f7, 2 * f8, 2 * f9) +
      (0x100000000000000000000000000000000 * f5) * V10(0, 0, 0, 0, 0, f5, 2 * f6, 2 * f7, 2 * f8, 2 * f9) +
      (0x200000000000000000000000000000000000000 * f6) * V10(0, 0, 0, 0, 0, 0, f6, 2 * f7, 2 * f8, 2 * f9) +
      (0x800000000000000000000000000000000000000000000 * f7) * V10(0, 0, 0, 0, 0, 0, 0, f7, 2 * f8, 2 * f9) +
      (0x1000000000000000000000000000000000000000000000000000 * f8) * V10(0, 0, 0, 0, 0, 0, 0, 0, f8, 2 * f9) +
      (0x4000000000000000000000000000000000000000000000000000000000 * f9) * V10(0, 0, 0, 0, 0, 0, 0, 0, 0, f9) ==
      V10(p0, p1, p2, p3, p4, p5, p6, p7, p8, p9) + q * P
    ensures In(p0, 3 * TERM) && In(p1, 3 * TERM) && In(p2, 4 * TERM) && In(p3, 3 * TERM) && In(p4, 3 * TERM) &&
      In(p5, 2 * TERM) && In(p6, 3 * TERM) && In(p7, 2 * TERM) && In(p8, 3 * TERM) && In(p9, 2 * TERM)
  {
    p0 := Dot3(2 * f3, 38 * f7, 2 * f4, 19 * f6, f5, 38 * f5);
    p1 := Dot3(2 * f3, 19 * f8, f4, 38 * f7, 2 * f5, 19 * f6);
    p2 := Dot4(2 * f3, 38 * f9, 2 * f4, 19 * f8, 2 * f5, 38 * f7, f6, 19 * f6);
    p3 := Dot3(f4, 38 * f9, 2 * f5, 19 * f8, f6, 38 * f7);
    p4 := Dot3(2 * f5, 38 * f9, 2 * f6, 19 * f8, f7, 38 * f7);
    p5 := Dot2(f6, 38 * f9, 2 * f7, 19 * f8);
    p6 := Dot3(2 * f3, f3, 2 * f7, 38 * f9, f8, 19 * f8);
    p7 := Dot2(2 * f3, f4, f8, 38 * f9);
    p8 := Dot3(2 * f3, 2 * f5, f4, f4, f9, 38 * f9);
    p9 := Dot2(2 * f3, f6, 2 * f4, f5);
    q := SquareHighRows(f3, f4, f5, f6, f7, f8, f9, p0, p1, p2, p3, p4, p5, p6, p7, p8, p9);
  }

  lemma SquareStep(u: int, t: int)
    ensures (u + t) * (u + t) == u * (u + 2 * t) + t * t
  {
  }

  /** A square, one limb at a time. */
  lemma SquareExpand(f0: int, f1: int, f2: int, f3: int, f4: int, f5: int, f6: int, f7: int, f8: int, f9: int)
    ensures V10(f0, f1, f2, f3, f4, f5, f6, f7, f8, f9) * V10(f0, f1, f2, f3, f4, f5, f6, f7, f8, f9) == (f0) *
      V10(f0, 2 * f1, 2 * f2, 2 * f3, 2 * f4, 2 * f5, 2 * f6, 2 * f7, 2 * f8, 2 * f9) + (0x4000000 * f1) * V10(0,
      f1, 2 * f2, 2 * f3, 2 * f4, 2 * f5, 2 * f6, 2 * f7, 2 * f8, 2 * f9) + (0x8000000000000 * f2) * V10(0, 0, f2, 2
      * f3, 2 * f4, 2 * f5, 2 * f6, 2 * f7, 2 * f8, 2 * f9) + (0x20000000000000000000 * f3) * V10(0, 0, 0, f3, 2 *
      f4, 2 * f5, 2 * f6, 2 * f7, 2 * f8, 2 * f9) + (0x40000000000000000000000000 * f4) * V10(0, 0, 0, 0, f4, 2 *
      f5, 2 * f6, 2 * f7, 2 * f8, 2 * f9) + (0x100000000000000000000000000000000 * f5) * V10(0, 0, 0, 0, 0, f5, 2 *
      f6, 2 * f7, 2 * f8, 2 * f9) + (0x200000000000000000000000000000000000000 * f6) * V10(0, 0, 0, 0, 0, 0, f6, 2 *
      f7, 2 * f8, 2 * f9) + (0x800000000000000000000000000000000000000000000 * f7) * V10(0, 0, 0, 0, 0, 0, 0, f7, 2
      * f8, 2 * f9) + (0x1000000000000000000000000000000000000000000000000000 * f8) * V10(0, 0, 0, 0, 0, 0, 0, 0,
      f8, 2 * f9) + (0x4000000000000000000000000000000000000000000000000000000000 * f9) * V10(0, 0, 0, 0, 0, 0, 0,
      0, 0, f9)
  {
    var t9 := 0x4000000000000000000000000000000000000000000000000000000000 * f9;
    var t8 := 0x1000000000000000000000000000000000000000000000000000 * f8 + t9;
    var t7 := 0x800000000000000000000000000000000000000000000 * f7 + t8;
    var t6 := 0x200000000000000000000000000000000000000 * f6 + t7;
    var t5 := 0x100000000000000000000000000000000 * f5 + t6;
    var t4 := 0x40000000000000000000000000 * f4 + t5;
    var t3 := 0x20000000000000000000 * f3 + t4;
    var t2 := 0x8000000000000 * f2 + t3;
    var t1 := 0x4000000 * f1 + t2;
    var t0 := f0 + t1;
    SquareStep(f0, t1);
    SquareStep(0x4000000 * f1, t2);
    SquareStep(0x8000000000000 * f2, t3);
    SquareStep(0x20000000000000000000 * f3, t4);
    SquareStep(0x40000000000000000000000000 * f4, t5);
    SquareStep(0x100000000000000000000000000000000 * f5, t6);
    SquareStep(0x200000000000000000000000000000000000000 * f6, t7);
    SquareStep(0x800000000000000000000000000000000000000000000 * f7, t8);
    SquareStep(0x1000000000000000000000000000000000000000000000000000 * f8, t9);
  }

  /** The ten column sums of f * f. */
  method SquareColumns(f: array<int>)
    returns (h0: int, h1: int, h2: int, h3: int, h4: int, h5: int, h6: int, h7: int, h8: int, h9: int, ghost q: int)
    requires f.Length == 10 && Range(f[..], 66)
    ensures Val(f[..]) * Val(f[..]) == V10(h0, h1, h2, h3, h4, h5, h6, h7, h8, h9) + q * P
    ensures In(h0, 6 * TERM) && In(h1, 6 * TERM) && In(h2, 6 * TERM) && In(h3, 6 * TERM) && In(h4, 6 * TERM) &&
      In(h5, 6 * TERM) && In(h6, 6 * TERM) && In(h7, 6 * TERM) && In(h8, 6 * TERM) && In(h9, 6 * TERM)
  {
    var f0, f1, f2, f3, f4, f5, f6, f7, f8, f9 := f[0], f[1], f[2], f[3], f[4], f[5], f[6], f[7], f[8], f[9];
    var p0, p1, p2, p3, p4, p5, p6, p7, p8, p9;
    ghost var r;
    p0, p1, p2, p3, p4, p5, p6, p7, p8, p9, q := SquareLowColumns(f0, f1, f2, f3, f4, f5, f6, f7, f8, f9);
    h0, h1, h2, h3, h4, h5, h6, h7, h8, h9, r := SquareHighColumns(f3, f4, f5, f6, f7, f8, f9);
    h0 := Int64(p0 + h0);
    h1 := Int64(p1 + h1);
    h2 := Int64(p2 + h2);
    h3 := Int64(p3 + h3);
    h4 := Int64(p4 + h4);
    h5 := Int64(p5 + h5);
    h6 := Int64(p6 + h6);
    h7 := Int64(p7 + h7);
    h8 := Int64(p8 + h8);
    h9 := Int64(p9 + h9);
    q := q + r;
    SquareExpand(f0, f1, f2, f3, f4, f5, f6, f7, f8, f9);
  }

  /** h = f * f; h may be f. */
  method FeSquare(h: array<int>, f: array<int>)
    requires h.Length == f.Length == 10 && Range(f[..], 66)
    modifies h
    ensures Cong(Val(h[..]), old(Val(f[..]) * Val(f[..]))) && Range(h[..], 22)
  {
    var h0, h1, h2, h3, h4, h5, h6, h7, h8, h9;
    ghost var q;
    ghost var F := Val(f[..]);
    h0, h1, h2, h3, h4, h5, h6, h7, h8, h9, q := SquareColumns(f);
    CongShift(V10(h0, h1, h2, h3, h4, h5, h6, h7, h8, h9), F * F, q);
    FeCombine(h, h0, h1, h2, h3, h4, h5, h6, h7, h8, h9);
  }

  lemma DoubledSquare(F: int, h0: int, h1: int, h2: int, h3: int, h4: int, h5: int, h6: int, h7: int, h8: int, h9: int,
      q: int)
    requires F * F == V10(h0, h1, h2, h3, h4, h5, h6, h7, h8, h9) + q * P
    ensures Cong(V10(h0 + h0, h1 + h1, h2 + h2, h3 + h3, h4 + h4, h5 + h5, h6 + h6, h7 + h7, h8 + h8, h9 + h9),
      2 * F * F)
  {
    var S := F * F;
    assert 2 * F * F == 2 * S;
    CongShift(V10(h0 + h0, h1 + h1, h2 + h2, h3 + h3, h4 + h4, h5 + h5, h6 + h6, h7 + h7, h8 + h8, h9 + h9), 2 * S,
      2 * q);
  }

  /** h = 2 * f * f; h may be f. */
  method FeSquare2(h: array<int>, f: array<int>)
    requires h.Length == f.Length == 10 && Range(f[..], 66)
    modifies h
    ensures Cong(Val(h[..]), old(2 * Val(f[..]) * Val(f[..]))) && Range(h[..], 22)
  {
    var h0, h1, h2, h3, h4, h5, h6, h7, h8, h9;
    ghost var q;
    ghost var F := Val(f[..]);
    h0, h1, h2, h3, h4, h5, h6, h7, h8, h9, q := SquareColumns(f);
    DoubledSquare(F, h0, h1, h2, h3, h4, h5, h6, h7, h8, h9, q);
    FeCombine(h, Int64(h0 + h0), Int64(h1 + h1), Int64(h2 + h2), Int64(h3 + h3), Int64(h4 + h4), Int64(h5 + h5),
      Int64(h6 + h6), Int64(h7 + h7), Int64(h8 + h8), Int64(h9 + h9));
  }
}
