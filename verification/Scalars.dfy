/**
  Scalars modulo the order L of the Ed25519 base point, on signed 21-bit limbs held in int64
  variables. An arithmetic shift right by 21 is the floor division by 2^21.
*/
module Scalars {
  import opened Bits

  const B := 0x20_0000 // 2^21
  const B6 := 0x4000_0000_0000_0000_0000_0000_0000_0000 // 2^126
  const C := 0x10000000_00000000_00000000_00000000_00000000_00000000_00000000_00000000 // 2^252
  const L := 0x10000000_00000000_00000000_00000000_14def9de_a2f79cd6_5812631a_5cf5d3ed

  /** Value of six consecutive limbs, least significant first. */
  function V6(a: int, b: int, c: int, d: int, e: int, f: int): int {
    a + B * (b + B * (c + B * (d + B * (e + B * f))))
  }

  function V12(s0: int, s1: int, s2: int, s3: int, s4: int, s5: int, s6: int, s7: int, s8: int, s9: int, s10: int,
      s11: int): int {
    V6(s0, s1, s2, s3, s4, s5) + B6 * V6(s6, s7, s8, s9, s10, s11)
  }

  // ---------------------------------------------------------------------------------------
  // The reduction that ends both ScMulAdd and ScReduce
  // ---------------------------------------------------------------------------------------

  /** The three lines that move the excess of x, rounded down, into the next limb. */
  method CarryFloor(x: int, y: int, ghost c: int) returns (x': int, y': int)
    requires In(x, c * B) && 0 <= c <= 0x1ff_ffff_ffff && In(y, 0x4000_0000_0000_0000)
    ensures x' + B * y' == x + B * y && 0 <= x' < B && In(y' - y, c)
  {
    var carry := x / B;
    y' := Int64(y + carry);
    x' := Int64(x - Int64(carry * B));
  }

  /** The same with rounding to nearest. */
  method CarryRound(x: int, y: int, ghost c: int) returns (x': int, y': int)
    requires In(x, c * B) && 0 <= c <= 0x1ff_ffff_ffff && In(y, 0x4000_0000_0000_0000)
    ensures x' + B * y' == x + B * y && -0x10_0000 <= x' < 0x10_0000 && In(y' - y, c + 1)
  {
    var carry := Int64(x + 0x10_0000) / B;
    y' := Int64(y + carry);
    x' := Int64(x - Int64(carry * B));
  }

  /** The six lines that add limb x, scaled, twelve places down: 2^252 is C - L modulo L. */
  method Fold(a: int, b: int, c: int, d: int, e: int, f: int, x: int)
    returns (a': int, b': int, c': int, d': int, e': int, f': int)
    requires In(x, 0x400_0000_0000) && In(a, 0x1000_0000_0000_0000) && In(b, 0x1000_0000_0000_0000)
    requires In(c, 0x1000_0000_0000_0000) && In(d, 0x1000_0000_0000_0000) && In(e, 0x1000_0000_0000_0000)
    requires In(f, 0x1000_0000_0000_0000)
    ensures a' == a + x * 666643 && b' == b + x * 470296 && c' == c + x * 654183
    ensures d' == d - x * 997805 && e' == e + x * 136657 && f' == f - x * 683901
  {
    a' := Int64(a + Int64(x * 666643));
    b' := Int64(b + Int64(x * 470296));
    c' := Int64(c + Int64(x * 654183));
    d' := Int64(d - Int64(x * 997805));
    e' := Int64(e + Int64(x * 136657));
    f' := Int64(f - Int64(x * 683901));
  }

  /** Two consecutive folds. */
  method FoldTwo(t0: int, t1: int, t2: int, t3: int, t4: int, t5: int, t6: int, x: int, y: int, ghost m: int, ghost
      d: int, ghost n: int)
    returns (s0: int, s1: int, s2: int, s3: int, s4: int, s5: int, s6: int)
    requires In(x, m) && In(y, m) && 0 <= m * 0x10_0000 <= d <= 0x100_0000_0000_0000
    requires 0 <= n <= 0x400_0000_0000_0000 && In(t0, n) && In(t1, n) && In(t2, n) && In(t3, n) && In(t4, n) &&
      In(t5, n) && In(t6, n)
    ensures V6(s0, s1, s2, s3, s4, s5) + B6 * s6 == V6(t0, t1, t2, t3, t4, t5) + B6 * t6 + (y + B * x) * (C - L)
    ensures In(s0, n + 2 * d) && In(s1, n + 2 * d) && In(s2, n + 2 * d) && In(s3, n + 2 * d) && In(s4, n + 2 * d) &&
      In(s5, n + 2 * d) && In(s6, n + 2 * d)
  {
    s0, s1, s2, s3, s4, s5, s6 := t0, t1, t2, t3, t4, t5, t6;
    s1, s2, s3, s4, s5, s6 := Fold(s1, s2, s3, s4, s5, s6, x);
    s0, s1, s2, s3, s4, s5 := Fold(s0, s1, s2, s3, s4, s5, y);
  }

  method FoldHigh(t6: int, t7: int, t8: int, t9: int, t10: int, t11: int, t12: int, t13: int, t14: int, t15: int,
      t16: int, t17: int, t18: int, t19: int, t20: int, t21: int, t22: int, t23: int)
    returns (s6: int, s7: int, s8: int, s9: int, s10: int, s11: int, s12: int, s13: int, s14: int, s15: int, s16:
      int, ghost q: int)
    requires In(t6, 0x8000_0000) && In(t7, 0x8000_0000) && In(t8, 0x8000_0000) && In(t9, 0x8000_0000) && In(t10,
      0x8000_0000) && In(t11, 0x8000_0000) && In(t12, 0x8000_0000) && In(t13, 0x8000_0000) && In(t14, 0x8000_0000)
      && In(t15, 0x8000_0000) && In(t16, 0x8000_0000) && In(t17, 0x8000_0000) && In(t18, 0x8000_0000) && In(t19,
      0x8000_0000) && In(t20, 0x8000_0000) && In(t21, 0x8000_0000) && In(t22, 0x8000_0000) && In(t23, 0x8000_0000)
    ensures V6(s6, s7, s8, s9, s10, s11) + B6 * V6(s12, s13, s14, s15, s16, t17) == V6(t6, t7, t8, t9, t10, t11) +
      B6 * V6(t12, t13, t14, t15, t16, t17) + C * V6(t18, t19, t20, t21, t22, t23) - q * L
    ensures In(s6, 0x40_0000_0000_0000) && In(s7, 0x40_0000_0000_0000) && In(s8, 0x40_0000_0000_0000) && In(s9,
      0x40_0000_0000_0000) && In(s10, 0x40_0000_0000_0000) && In(s11, 0x40_0000_0000_0000) && In(s12,
      0x40_0000_0000_0000) && In(s13, 0x40_0000_0000_0000) && In(s14, 0x40_0000_0000_0000) && In(s15,
      0x40_0000_0000_0000) && In(s16, 0x40_0000_0000_0000)
  {
    s6, s7, s8, s9, s10, s11, s12, s13, s14, s15, s16 := t6, t7, t8, t9, t10, t11, t12, t13, t14, t15, t16;
    q := V6(t18, t19, t20, t21, t22, t23);
    s10, s11, s12, s13, s14, s15, s16 := FoldTwo(s10, s11, s12, s13, s14, s15, s16, t23, t22, 0x8000_0000,
      0x8_0000_0000_0000, 0x80000000);
    s8, s9, s10, s11, s12, s13, s14 := FoldTwo(s8, s9, s10, s11, s12, s13, s14, t21, t20, 0x8000_0000,
      0x8_0000_0000_0000, 0x10000080000000);
    s6, s7, s8, s9, s10, s11, s12 := FoldTwo(s6, s7, s8, s9, s10, s11, s12, t19, t18, 0x8000_0000,
      0x8_0000_0000_0000, 0x20000080000000);
  }

  method CarryMiddle(t6: int, t7: int, t8: int, t9: int, t10: int, t11: int, t12: int, t13: int, t14: int, t15: int,
      t16: int, t17: int)
    returns (s6: int, s7: int, s8: int, s9: int, s10: int, s11: int, s12: int, s13: int, s14: int, s15: int, s16:
      int, s17: int)
    requires In(t6, 0x40_0000_0000_0000) && In(t7, 0x40_0000_0000_0000) && In(t8, 0x40_0000_0000_0000) && In(t9,
      0x40_0000_0000_0000) && In(t10, 0x40_0000_0000_0000) && In(t11, 0x40_0000_0000_0000) && In(t12,
      0x40_0000_0000_0000) && In(t13, 0x40_0000_0000_0000) && In(t14, 0x40_0000_0000_0000) && In(t15,
      0x40_0000_0000_0000) && In(t16, 0x40_0000_0000_0000) && In(t17, 0x8000_0000)
    ensures V6(s6, s7, s8, s9, s10, s11) + B6 * V6(s12, s13, s14, s15, s16, s17) == V6(t6, t7, t8, t9, t10, t11) +
      B6 * V6(t12, t13, t14, t15, t16, t17)
    ensures In(s6, 0x8_0000_0000) && In(s7, 0x8_0000_0000) && In(s8, 0x8_0000_0000) && In(s9, 0x8_0000_0000) &&
      In(s10, 0x8_0000_0000) && In(s11, 0x8_0000_0000) && In(s12, 0x8_0000_0000) && In(s13, 0x8_0000_0000) &&
      In(s14, 0x8_0000_0000) && In(s15, 0x8_0000_0000) && In(s16, 0x8_0000_0000) && In(s17, 0x8_0000_0000)
  {
    s6, s7, s8, s9, s10, s11, s12, s13, s14, s15, s16, s17 := t6, t7, t8, t9, t10, t11, t12, t13, t14, t15, t16,
      t17;
    s6, s7 := CarryRound(s6, s7, 0x4_0000_0000);
    s8, s9 := CarryRound(s8, s9, 0x4_0000_0000);
    s10, s11 := CarryRound(s10, s11, 0x4_0000_0000);
    s12, s13 := CarryRound(s12, s13, 0x4_0000_0000);
    s14, s15 := CarryRound(s14, s15, 0x4_0000_0000);
    s16, s17 := CarryRound(s16, s17, 0x4_0000_0000);
    s7, s8 := CarryRound(s7, s8, 0x4_0000_0000);
    s9, s10 := CarryRound(s9, s10, 0x4_0000_0000);
    s11, s12 := CarryRound(s11, s12, 0x4_0000_0000);
    s13, s14 := CarryRound(s13, s14, 0x4_0000_0000);
    s15, s16 := CarryRound(s15, s16, 0x4_0000_0000);
  }

  method FoldLow(t0: int, t1: int, t2: int, t3: int, t4: int, t5: int, t6: int, t7: int, t8: int, t9: int, t10: int,
      t11: int, t12: int, t13: int, t14: int, t15: int, t16: int, t17: int)
    returns (s0: int, s1: int, s2: int, s3: int, s4: int, s5: int, s6: int, s7: int, s8: int, s9: int, s10: int,
      s11: int, ghost q: int)
    requires In(t0, 0x40_0000_0000_0000) && In(t1, 0x40_0000_0000_0000) && In(t2, 0x40_0000_0000_0000) && In(t3,
      0x40_0000_0000_0000) && In(t4, 0x40_0000_0000_0000) && In(t5, 0x40_0000_0000_0000)
    requires In(t6, 0x8_0000_0000) && In(t7, 0x8_0000_0000) && In(t8, 0x8_0000_0000) && In(t9, 0x8_0000_0000) &&
      In(t10, 0x8_0000_0000) && In(t11, 0x8_0000_0000) && In(t12, 0x8_0000_0000) && In(t13, 0x8_0000_0000) &&
      In(t14, 0x8_0000_0000) && In(t15, 0x8_0000_0000) && In(t16, 0x8_0000_0000) && In(t17, 0x8_0000_0000)
    ensures V12(s0, s1, s2, s3, s4, s5, s6, s7, s8, s9, s10, s11) == V12(t0, t1, t2, t3, t4, t5, t6, t7, t8, t9,
      t10, t11) + C * V6(t12, t13, t14, t15, t16, t17) - q * L
    ensures In(s0, 0x400_0000_0000_0000) && In(s1, 0x400_0000_0000_0000) && In(s2, 0x400_0000_0000_0000) && In(s3,
      0x400_0000_0000_0000) && In(s4, 0x400_0000_0000_0000) && In(s5, 0x400_0000_0000_0000) && In(s6,
      0x400_0000_0000_0000) && In(s7, 0x400_0000_0000_0000) && In(s8, 0x400_0000_0000_0000) && In(s9,
      0x400_0000_0000_0000) && In(s10, 0x400_0000_0000_0000) && In(s11, 0x400_0000_0000_0000)
  {
    s0, s1, s2, s3, s4, s5, s6, s7, s8, s9, s10, s11 := t0, t1, t2, t3, t4, t5, t6, t7, t8, t9, t10, t11;
    q := V6(t12, t13, t14, t15, t16, t17);
    s4, s5, s6, s7, s8, s9, s10 := FoldTwo(s4, s5, s6, s7, s8, s9, s10, t17, t16, 0x8_0000_0000,
      0x80_0000_0000_0000, 0x40000000000000);
    s2, s3, s4, s5, s6, s7, s8 := FoldTwo(s2, s3, s4, s5, s6, s7, s8, t15, t14, 0x8_0000_0000, 0x80_0000_0000_0000,
      0x140000000000000);
    s0, s1, s2, s3, s4, s5, s6 := FoldTwo(s0, s1, s2, s3, s4, s5, s6, t13, t12, 0x8_0000_0000, 0x80_0000_0000_0000,
      0x240000000000000);
  }

  method CarryLow(t0: int, t1: int, t2: int, t3: int, t4: int, t5: int, t6: int, t7: int, t8: int, t9: int, t10:
      int, t11: int)
    returns (s0: int, s1: int, s2: int, s3: int, s4: int, s5: int, s6: int, s7: int, s8: int, s9: int, s10: int,
      s11: int, s12: int)
    requires In(t0, 0x400_0000_0000_0000) && In(t1, 0x400_0000_0000_0000) && In(t2, 0x400_0000_0000_0000) && In(t3,
      0x400_0000_0000_0000) && In(t4, 0x400_0000_0000_0000) && In(t5, 0x400_0000_0000_0000) && In(t6,
      0x400_0000_0000_0000) && In(t7, 0x400_0000_0000_0000) && In(t8, 0x400_0000_0000_0000) && In(t9,
      0x400_0000_0000_0000) && In(t10, 0x400_0000_0000_0000) && In(t11, 0x400_0000_0000_0000)
    ensures V12(s0, s1, s2, s3, s4, s5, s6, s7, s8, s9, s10, s11) + C * s12 == V12(t0, t1, t2, t3, t4, t5, t6, t7,
      t8, t9, t10, t11)
    ensures In(s0, 0x80_0000_0000) && In(s1, 0x80_0000_0000) && In(s2, 0x80_0000_0000) && In(s3, 0x80_0000_0000) &&
      In(s4, 0x80_0000_0000) && In(s5, 0x80_0000_0000) && In(s6, 0x80_0000_0000) && In(s7, 0x80_0000_0000) && In(s8,
      0x80_0000_0000) && In(s9, 0x80_0000_0000) && In(s10, 0x80_0000_0000) && In(s11, 0x10_0000) && In(s12,
      0x80_0000_0000)
  {
    s0, s1, s2, s3, s4, s5, s6, s7, s8, s9, s10, s11, s12 := t0, t1, t2, t3, t4, t5, t6, t7, t8, t9, t10, t11, 0;
    s0, s1 := CarryRound(s0, s1, 0x40_0000_0000);
    s2, s3 := CarryRound(s2, s3, 0x40_0000_0000);
    s4, s5 := CarryRound(s4, s5, 0x40_0000_0000);
    s6, s7 := CarryRound(s6, s7, 0x40_0000_0000);
    s8, s9 := CarryRound(s8, s9, 0x40_0000_0000);
    s10, s11 := CarryRound(s10, s11, 0x40_0000_0000);
    s1, s2 := CarryRound(s1, s2, 0x40_0000_0000);
    s3, s4 := CarryRound(s3, s4, 0x40_0000_0000);
    s5, s6 := CarryRound(s5, s6, 0x40_0000_0000);
    s7, s8 := CarryRound(s7, s8, 0x40_0000_0000);
    s9, s10 := CarryRound(s9, s10, 0x40_0000_0000);
    s11, s12 := CarryRound(s11, s12, 0x40_0000_0000);
  }

  /** Floor carries out of limbs 0 to 10. */
  method FloorCarries(t0: int, t1: int, t2: int, t3: int, t4: int, t5: int, t6: int, t7: int, t8: int, t9: int, t10:
      int, t11: int)
    returns (s0: int, s1: int, s2: int, s3: int, s4: int, s5: int, s6: int, s7: int, s8: int, s9: int, s10: int,
      s11: int)
    requires In(t0, 0x800_0000_0000_0000) && In(t1, 0x800_0000_0000_0000) && In(t2, 0x800_0000_0000_0000) && In(t3,
      0x800_0000_0000_0000) && In(t4, 0x800_0000_0000_0000) && In(t5, 0x800_0000_0000_0000) && In(t6,
      0x800_0000_0000_0000) && In(t7, 0x800_0000_0000_0000) && In(t8, 0x800_0000_0000_0000) && In(t9,
      0x800_0000_0000_0000) && In(t10, 0x800_0000_0000_0000) && In(t11, 0x800_0000_0000_0000)
    ensures V12(s0, s1, s2, s3, s4, s5, s6, s7, s8, s9, s10, s11) == V12(t0, t1, t2, t3, t4, t5, t6, t7, t8, t9,
      t10, t11)
    ensures 0 <= s0 < B && 0 <= s1 < B && 0 <= s2 < B && 0 <= s3 < B && 0 <= s4 < B && 0 <= s5 < B && 0 <= s6 < B &&
      0 <= s7 < B && 0 <= s8 < B && 0 <= s9 < B && 0 <= s10 < B
    ensures In(s11, 0x900_0000_0000_0000)
  {
    s0, s1, s2, s3, s4, s5, s6, s7, s8, s9, s10, s11 := t0, t1, t2, t3, t4, t5, t6, t7, t8, t9, t10, t11;
    s0, s1 := CarryFloor(s0, s1, 0x80_0000_0000);
    s1, s2 := CarryFloor(s1, s2, 0x80_0000_0000);
    s2, s3 := CarryFloor(s2, s3, 0x80_0000_0000);
    s3, s4 := CarryFloor(s3, s4, 0x80_0000_0000);
    s4, s5 := CarryFloor(s4, s5, 0x80_0000_0000);
    assert V6(s0, s1, s2, s3, s4, s5) == V6(t0, t1, t2, t3, t4, t5);
    s5, s6 := CarryFloor(s5, s6, 0x80_0000_0000);
    s6, s7 := CarryFloor(s6, s7, 0x80_0000_0000);
    s7, s8 := CarryFloor(s7, s8, 0x80_0000_0000);
    assert V6(s0, s1, s2, s3, s4, s5) + B6 * V6(s6, s7, s8, 0, 0, 0) == V6(t0, t1, t2, t3, t4, t5) + B6 * V6(t6, t7,
      t8, 0, 0, 0);
    s8, s9 := CarryFloor(s8, s9, 0x80_0000_0000);
    s9, s10 := CarryFloor(s9, s10, 0x80_0000_0000);
    s10, s11 := CarryFloor(s10, s11, 0x80_0000_0000);
  }

  /** A value with limbs 0 to 10 in range lies just above its top limb. */
  lemma TopLimb(s0: int, s1: int, s2: int, s3: int, s4: int, s5: int, s6: int, s7: int, s8: int, s9: int, s10: int,
      s11: int)
    requires 0 <= s0 < B && 0 <= s1 < B && 0 <= s2 < B && 0 <= s3 < B && 0 <= s4 < B && 0 <= s5 < B && 0 <= s6 < B
      && 0 <= s7 < B && 0 <= s8 < B && 0 <= s9 < B && 0 <= s10 < B
    ensures 0 <= V12(s0, s1, s2, s3, s4, s5, s6, s7, s8, s9, s10,
      0) < 0x8000000000000000000000000000000000000000000000000000000000
    ensures V12(s0, s1, s2, s3, s4, s5, s6, s7, s8, s9, s10, s11) == V12(s0, s1, s2, s3, s4, s5, s6, s7, s8, s9, s10,
      0) + s11 * 0x8000000000000000000000000000000000000000000000000000000000
  {
  }

  /** Folding s12 leaves a value within 3/4 C of zero. */
  method FoldTop(t0: int, t1: int, t2: int, t3: int, t4: int, t5: int, t6: int, t7: int, t8: int, t9: int, t10: int,
      t11: int, t12: int)
    returns (s0: int, s1: int, s2: int, s3: int, s4: int, s5: int)
    requires In(t0, 0x80_0000_0000) && In(t1, 0x80_0000_0000) && In(t2, 0x80_0000_0000) && In(t3, 0x80_0000_0000) &&
      In(t4, 0x80_0000_0000) && In(t5, 0x80_0000_0000) && In(t6, 0x80_0000_0000) && In(t7, 0x80_0000_0000) && In(t8,
      0x80_0000_0000) && In(t9, 0x80_0000_0000) && In(t10, 0x80_0000_0000) && In(t11, 0x10_0000) && In(t12,
      0x80_0000_0000)
    ensures V12(s0, s1, s2, s3, s4, s5, t6, t7, t8, t9, t10, t11) == V12(t0, t1, t2, t3, t4, t5, t6, t7, t8, t9,
      t10, t11) + C * t12 - t12 * L && In(V12(s0, s1, s2, s3, s4, s5, t6, t7, t8, t9, t10, t11), C - C / 4)
    ensures In(s0, 0x800_0000_0000_0000) && In(s1, 0x800_0000_0000_0000) && In(s2, 0x800_0000_0000_0000) && In(s3,
      0x800_0000_0000_0000) && In(s4, 0x800_0000_0000_0000) && In(s5, 0x800_0000_0000_0000)
  {
    s0, s1, s2, s3, s4, s5 := Fold(t0, t1, t2, t3, t4, t5, t12);
  }

  /**
    The first of the last two passes. Its floor carry out of limb 11 is 0 or -1, and folding that
    brings the value into [0, L).
  */
  method FirstPass(t0: int, t1: int, t2: int, t3: int, t4: int, t5: int, t6: int, t7: int, t8: int, t9: int, t10:
      int, t11: int, t12: int)
    returns (s0: int, s1: int, s2: int, s3: int, s4: int, s5: int, s6: int, s7: int, s8: int, s9: int, s10: int,
      s11: int, ghost q: int)
    requires In(t0, 0x80_0000_0000) && In(t1, 0x80_0000_0000) && In(t2, 0x80_0000_0000) && In(t3, 0x80_0000_0000) &&
      In(t4, 0x80_0000_0000) && In(t5, 0x80_0000_0000) && In(t6, 0x80_0000_0000) && In(t7, 0x80_0000_0000) && In(t8,
      0x80_0000_0000) && In(t9, 0x80_0000_0000) && In(t10, 0x80_0000_0000) && In(t11, 0x10_0000) && In(t12,
      0x80_0000_0000)
    ensures 0 <= V12(s0, s1, s2, s3, s4, s5, s6, s7, s8, s9, s10, s11) < L && V12(s0, s1, s2, s3, s4, s5, s6, s7,
      s8, s9, s10, s11) == V12(t0, t1, t2, t3, t4, t5, t6, t7, t8, t9, t10, t11) + C * t12 - q * L
    ensures In(s0, 0x40_0000) && In(s1, 0x40_0000) && In(s2, 0x40_0000) && In(s3, 0x40_0000) && In(s4, 0x40_0000) &&
      In(s5, 0x40_0000) && In(s6, 0x40_0000) && In(s7, 0x40_0000) && In(s8, 0x40_0000) && In(s9, 0x40_0000) &&
      In(s10, 0x40_0000) && In(s11, 0x40_0000)
  {
    s0, s1, s2, s3, s4, s5 := FoldTop(t0, t1, t2, t3, t4, t5, t6, t7, t8, t9, t10, t11, t12);
    ghost var u := V12(s0, s1, s2, s3, s4, s5, t6, t7, t8, t9, t10, t11);
    s0, s1, s2, s3, s4, s5, s6, s7, s8, s9, s10, s11 := FloorCarries(s0, s1, s2, s3, s4, s5, t6, t7, t8, t9, t10,
      t11);
    var s12;
    s11, s12 := CarryFloor(s11, 0, 0x80_0000_0000);
    CarryOutOfTop(s0, s1, s2, s3, s4, s5, s6, s7, s8, s9, s10, s11, s12, u);
    s0, s1, s2, s3, s4, s5 := Fold(s0, s1, s2, s3, s4, s5, s12);
    q := t12 + s12;
  }

  lemma CarryOutOfTop(s0: int, s1: int, s2: int, s3: int, s4: int, s5: int, s6: int, s7: int, s8: int, s9: int, s10:
      int, s11: int, s12: int, u: int)
    requires 0 <= s0 < B && 0 <= s1 < B && 0 <= s2 < B && 0 <= s3 < B && 0 <= s4 < B && 0 <= s5 < B && 0 <= s6 < B
      && 0 <= s7 < B && 0 <= s8 < B && 0 <= s9 < B && 0 <= s10 < B && 0 <= s11 < B
    requires In(u, C - C / 4) && u == V12(s0, s1, s2, s3, s4, s5, s6, s7, s8, s9, s10, s11) + C * s12
    ensures s12 == (if u < 0 then -1 else 0)
  {
    TopLimb(s0, s1, s2, s3, s4, s5, s6, s7, s8, s9, s10, s11);
  }

  method LastPasses(t0: int, t1: int, t2: int, t3: int, t4: int, t5: int, t6: int, t7: int, t8: int, t9: int, t10:
      int, t11: int, t12: int)
    returns (s0: int, s1: int, s2: int, s3: int, s4: int, s5: int, s6: int, s7: int, s8: int, s9: int, s10: int,
      s11: int)
    requires In(t0, 0x80_0000_0000) && In(t1, 0x80_0000_0000) && In(t2, 0x80_0000_0000) && In(t3, 0x80_0000_0000) &&
      In(t4, 0x80_0000_0000) && In(t5, 0x80_0000_0000) && In(t6, 0x80_0000_0000) && In(t7, 0x80_0000_0000) && In(t8,
      0x80_0000_0000) && In(t9, 0x80_0000_0000) && In(t10, 0x80_0000_0000) && In(t11, 0x10_0000) && In(t12,
      0x80_0000_0000)
    ensures V12(s0, s1, s2, s3, s4, s5, s6, s7, s8, s9, s10, s11) == (V12(t0, t1, t2, t3, t4, t5, t6, t7, t8, t9,
      t10, t11) + C * t12) % L
    ensures 0 <= s0 < B && 0 <= s1 < B && 0 <= s2 < B && 0 <= s3 < B && 0 <= s4 < B && 0 <= s5 < B && 0 <= s6 < B &&
      0 <= s7 < B && 0 <= s8 < B && 0 <= s9 < B && 0 <= s10 < B && 0 <= s11 <= B
  {
    ghost var q;
    s0, s1, s2, s3, s4, s5, s6, s7, s8, s9, s10, s11, q := FirstPass(t0, t1, t2, t3, t4, t5, t6, t7, t8, t9, t10,
      t11, t12);
    s0, s1, s2, s3, s4, s5, s6, s7, s8, s9, s10, s11 := FloorCarries(s0, s1, s2, s3, s4, s5, s6, s7, s8, s9, s10,
      s11);
    TopLimb(s0, s1, s2, s3, s4, s5, s6, s7, s8, s9, s10, s11);
    ModUnique(V12(t0, t1, t2, t3, t4, t5, t6, t7, t8, t9, t10, t11) + C * t12, L, q, V12(s0, s1, s2, s3, s4, s5, s6,
      s7, s8, s9, s10, s11));
  }

  method Reduce(t0: int, t1: int, t2: int, t3: int, t4: int, t5: int, t6: int, t7: int, t8: int, t9: int, t10: int,
      t11: int, t12: int, t13: int, t14: int, t15: int, t16: int, t17: int, t18: int, t19: int, t20: int, t21: int,
      t22: int, t23: int)
    returns (s0: int, s1: int, s2: int, s3: int, s4: int, s5: int, s6: int, s7: int, s8: int, s9: int, s10: int,
      s11: int)
    requires In(t0, 0x8000_0000) && In(t1, 0x8000_0000) && In(t2, 0x8000_0000) && In(t3, 0x8000_0000) && In(t4,
      0x8000_0000) && In(t5, 0x8000_0000) && In(t6, 0x8000_0000) && In(t7, 0x8000_0000) && In(t8, 0x8000_0000) &&
      In(t9, 0x8000_0000) && In(t10, 0x8000_0000) && In(t11, 0x8000_0000) && In(t12, 0x8000_0000) && In(t13,
      0x8000_0000) && In(t14, 0x8000_0000) && In(t15, 0x8000_0000) && In(t16, 0x8000_0000) && In(t17, 0x8000_0000)
      && In(t18, 0x8000_0000) && In(t19, 0x8000_0000) && In(t20, 0x8000_0000) && In(t21, 0x8000_0000) && In(t22,
      0x8000_0000) && In(t23, 0x8000_0000)
    ensures V12(s0, s1, s2, s3, s4, s5, s6, s7, s8, s9, s10, s11) == (V12(t0, t1, t2, t3, t4, t5, t6, t7, t8, t9,
      t10, t11) + C * V12(t12, t13, t14, t15, t16, t17, t18, t19, t20, t21, t22, t23)) % L
    ensures 0 <= s0 < B && 0 <= s1 < B && 0 <= s2 < B && 0 <= s3 < B && 0 <= s4 < B && 0 <= s5 < B && 0 <= s6 < B &&
      0 <= s7 < B && 0 <= s8 < B && 0 <= s9 < B && 0 <= s10 < B && 0 <= s11 <= B
  {
    s0, s1, s2, s3, s4, s5 := t0, t1, t2, t3, t4, t5;
    ghost var v := V12(t0, t1, t2, t3, t4, t5, t6, t7, t8, t9, t10, t11) + C * V12(t12, t13, t14, t15, t16, t17,
      t18, t19, t20, t21, t22, t23);
    var s12, s13, s14, s15, s16, s17;
    ghost var q, p;
    s6, s7, s8, s9, s10, s11, s12, s13, s14, s15, s16, q := FoldHigh(t6, t7, t8, t9, t10, t11, t12, t13, t14, t15,
      t16, t17, t18, t19, t20, t21, t22, t23);
    s6, s7, s8, s9, s10, s11, s12, s13, s14, s15, s16, s17 := CarryMiddle(s6, s7, s8, s9, s10, s11, s12, s13, s14,
      s15, s16, t17);
    assert V12(s0, s1, s2, s3, s4, s5, s6, s7, s8, s9, s10, s11) + C * V6(s12, s13, s14, s15, s16,
      s17) == v - q * B6 * L;
    s0, s1, s2, s3, s4, s5, s6, s7, s8, s9, s10, s11, p := FoldLow(s0, s1, s2, s3, s4, s5, s6, s7, s8, s9, s10, s11,
      s12, s13, s14, s15, s16, s17);
    s0, s1, s2, s3, s4, s5, s6, s7, s8, s9, s10, s11, s12 := CarryLow(s0, s1, s2, s3, s4, s5, s6, s7, s8, s9, s10,
      s11);
    ghost var u := V12(s0, s1, s2, s3, s4, s5, s6, s7, s8, s9, s10, s11) + C * s12;
    s0, s1, s2, s3, s4, s5, s6, s7, s8, s9, s10, s11 := LastPasses(s0, s1, s2, s3, s4, s5, s6, s7, s8, s9, s10, s11,
      s12);
    SameResidue(v, u, q * B6 + p);
  }

  lemma SameResidue(v: int, u: int, k: int)
    requires u == v - k * L
    ensures u % L == v % L
  {
    assert v == (k + u / L) * L + u % L;
    ModUnique(v, L, k + u / L, u % L);
  }

  // ---------------------------------------------------------------------------------------
  // Loading limbs from bytes
  // ---------------------------------------------------------------------------------------

  /** A limb read from the word w at the bottom of T, shifted right by s, is a digit of T / s. */
  lemma LimbOfWord(T: int, w: int, m: int, h: int, s: int, e: int)
    requires T == w + m * h && s > 0 && m == s * (B * e)
    ensures (w / s) % B == (T / s) % B
  {
    DigitOfWord(T, w, m, h, s, B, e);
  }

  /** Dropping 21 more bits, when whole bytes worth d have gone by. */
  lemma NextLimb(T: int, x: int, d: int, U: int, s: int, s': int)
    requires T == x + d * U && 0 <= x < d && s > 0 && s' > 0 && s * B == d * s'
    ensures (T / s) / B == U / s'
  {
    DivDiv(T, s, B);
    DivDiv(T, d, s');
    ModUnique(T, d, U, x);
  }

  lemma LimbOf3(b: seq<Byte>, i: nat, s: int, e: int)
    requires i + 3 <= |b| && s > 0 && s * (B * e) == 0x100_0000
    ensures (Load3(b, i) / s) % B == (LittleEndianFrom(b, i) / s) % B
  {
    assert LittleEndianFrom(b, i + 1) == At(b, i + 1) + 256 * LittleEndianFrom(b, i + 2);
    LimbOfWord(LittleEndianFrom(b, i), Load3(b, i), 0x100_0000, LittleEndianFrom(b, i + 3), s, e);
  }

  lemma LimbOf4(b: seq<Byte>, i: nat, s: int, e: int)
    requires i + 4 <= |b| && s > 0 && s * (B * e) == 0x1_0000_0000
    ensures (Load4(b, i) / s) % B == (LittleEndianFrom(b, i) / s) % B
  {
    FourBytes(b, i);
    LimbOfWord(LittleEndianFrom(b, i), Load4(b, i), 0x1_0000_0000, LittleEndianFrom(b, i + 4), s, e);
  }

  lemma Skip2(b: seq<Byte>, i: nat, s: int, s': int)
    requires i + 2 <= |b| && s > 0 && s' > 0 && s * B == 0x1_0000 * s'
    ensures (LittleEndianFrom(b, i) / s) / B == LittleEndianFrom(b, i + 2) / s'
  {
    assert LittleEndianFrom(b, i + 1) == At(b, i + 1) + 256 * LittleEndianFrom(b, i + 2);
    NextLimb(LittleEndianFrom(b, i), At(b, i) + 256 * At(b, i + 1), 0x1_0000, LittleEndianFrom(b, i + 2), s, s');
  }

  lemma Skip3(b: seq<Byte>, i: nat, s: int, s': int)
    requires i + 3 <= |b| && s > 0 && s' > 0 && s * B == 0x100_0000 * s'
    ensures (LittleEndianFrom(b, i) / s) / B == LittleEndianFrom(b, i + 3) / s'
  {
    assert LittleEndianFrom(b, i + 1) == At(b, i + 1) + 256 * LittleEndianFrom(b, i + 2);
    assert LittleEndianFrom(b, i + 2) == At(b, i + 2) + 256 * LittleEndianFrom(b, i + 3);
    NextLimb(LittleEndianFrom(b, i), Load3(b, i), 0x100_0000, LittleEndianFrom(b, i + 3), s, s');
  }

  /** Eight limbs cover 21 bytes exactly. */
  lemma EightLimbs(b: seq<Byte>, i: nat)
    requires i + 21 <= |b|
    ensures LittleEndianFrom(b, i)
         == V6(Mask21(Load3(b, i)), Mask21(Load4(b, i + 2) / 0x20), Mask21(Load3(b, i + 5) / 4),
               Mask21(Load4(b, i + 7) / 0x80), Mask21(Load4(b, i + 10) / 0x10), Mask21(Load3(b, i + 13) / 2))
          + B6 * (Mask21(Load4(b, i + 15) / 0x40) + B * (Mask21(Load3(b, i + 18) / 8)
          + B * LittleEndianFrom(b, i + 21)))
  {
    LimbOf3(b, i, 1, 8);
    Skip2(b, i, 1, 0x20);
    LimbOf4(b, i + 2, 0x20, 0x40);
    Skip3(b, i + 2, 0x20, 4);
    LimbOf3(b, i + 5, 4, 2);
    Skip2(b, i + 5, 4, 0x80);
    LimbOf4(b, i + 7, 0x80, 0x10);
    Skip3(b, i + 7, 0x80, 0x10);
    LimbOf4(b, i + 10, 0x10, 0x80);
    Skip3(b, i + 10, 0x10, 2);
    LimbOf3(b, i + 13, 2, 4);
    Skip2(b, i + 13, 2, 0x40);
    LimbOf4(b, i + 15, 0x40, 0x20);
    Skip3(b, i + 15, 0x40, 8);
    LimbOf3(b, i + 18, 8, 1);
    Skip3(b, i + 18, 8, 1);
  }

  // ---------------------------------------------------------------------------------------
  // Storing limbs as bytes
  // ---------------------------------------------------------------------------------------

  /** Bytes 21 to 31 hold limbs 8 to 11. */
  lemma HighBytes(out: seq<Byte>, s8: int, s9: int, s10: int, s11: int)
    requires |out| == 32
    requires 0 <= s8 < B && 0 <= s9 < B && 0 <= s10 < B && 0 <= s11 <= B
    requires out[21] == ToByte(s8)
    requires out[22] == ToByte(s8 / 0x100)
    requires out[23] == ToByte(s8 / 0x10000 + s9 * 0x20)
    requires out[24] == ToByte(s9 / 0x8)
    requires out[25] == ToByte(s9 / 0x800)
    requires out[26] == ToByte(s9 / 0x80000 + s10 * 0x4)
    requires out[27] == ToByte(s10 / 0x40)
    requires out[28] == ToByte(s10 / 0x4000 + s11 * 0x80)
    requires out[29] == ToByte(s11 / 0x2)
    requires out[30] == ToByte(s11 / 0x200)
    requires out[31] == ToByte(s11 / 0x20000)
    ensures LittleEndianFrom(out, 21) == V6(s8, s9, s10, s11, 0, 0)
  {
    var t11: int := s11;
    var t10 := s10 + B * t11;
    var t9 := s9 + B * t10;
    var t8 := s8 + B * t9;
    DivOne(s8);
    DivOne(t8);
    ByteInside(out, 31, t11, s11, 0x2000000, 0, 0x20000, 1);
    ByteInside(out, 30, t11, s11, 0x20000, 0, 0x200, 1);
    ByteInside(out, 29, t11, s11, 0x200, 0, 0x2, 1);
    ByteAcross(out, 28, B, B, t10, s10, t11, s11, 0, 0x4000, 0x80, 0x2, 0x100000);
    ByteInside(out, 27, t10, s10, B, t11, 0x40, 0x80);
    ByteAcross(out, 26, B, B, t9, s9, t10, s10, t11, 0x80000, 0x4, 0x40, 0x8000);
    ByteInside(out, 25, t9, s9, B, t10, 0x800, 0x4);
    ByteInside(out, 24, t9, s9, B, t10, 0x8, 0x400);
    ByteAcross(out, 23, B, B, t8, s8, t9, s9, t10, 0x10000, 0x20, 0x8, 0x40000);
    ByteInside(out, 22, t8, s8, B, t9, 0x100, 0x20);
    ByteInside(out, 21, t8, s8, B, t9, 0x1, 0x2000);
  }

  /** Bytes 11 to 20 hold limbs 5 to 7 and the top of limb 4. */
  lemma MiddleBytes(out: seq<Byte>, s4: int, s5: int, s6: int, s7: int, t8: int)
    requires |out| == 32 && LittleEndianFrom(out, 21) == t8
    requires 0 <= s4 < B && 0 <= s5 < B && 0 <= s6 < B && 0 <= s7 < B
    requires out[11] == ToByte(s4 / 0x10)
    requires out[12] == ToByte(s4 / 0x1000)
    requires out[13] == ToByte(s4 / 0x100000 + s5 * 0x2)
    requires out[14] == ToByte(s5 / 0x80)
    requires out[15] == ToByte(s5 / 0x8000 + s6 * 0x40)
    requires out[16] == ToByte(s6 / 0x4)
    requires out[17] == ToByte(s6 / 0x400)
    requires out[18] == ToByte(s6 / 0x40000 + s7 * 0x8)
    requires out[19] == ToByte(s7 / 0x20)
    requires out[20] == ToByte(s7 / 0x2000)
    ensures LittleEndianFrom(out, 11) == (s4 + B * (s5 + B * (s6 + B * (s7 + B * t8)))) / 0x10
  {
    var t7 := s7 + B * t8;
    var t6 := s6 + B * t7;
    var t5 := s5 + B * t6;
    var t4 := s4 + B * t5;
    ModUnique(t7, B, t8, s7);
    ByteInside(out, 20, t7, s7, B, t8, 0x2000, 0x1);
    ByteInside(out, 19, t7, s7, B, t8, 0x20, 0x100);
    ByteAcross(out, 18, B, B, t6, s6, t7, s7, t8, 0x40000, 0x8, 0x20, 0x10000);
    ByteInside(out, 17, t6, s6, B, t7, 0x400, 0x8);
    ByteInside(out, 16, t6, s6, B, t7, 0x4, 0x800);
    ByteAcross(out, 15, B, B, t5, s5, t6, s6, t7, 0x8000, 0x40, 0x4, 0x80000);
    ByteInside(out, 14, t5, s5, B, t6, 0x80, 0x40);
    ByteAcross(out, 13, B, B, t4, s4, t5, s5, t6, 0x100000, 0x2, 0x80, 0x4000);
    ByteInside(out, 12, t4, s4, B, t5, 0x1000, 0x2);
    ByteInside(out, 11, t4, s4, B, t5, 0x10, 0x200);
  }

  /** Bytes 0 to 10 hold limbs 0 to 3 and the bottom of limb 4. */
  lemma LowBytes(out: seq<Byte>, s0: int, s1: int, s2: int, s3: int, s4: int, t5: int)
    requires |out| == 32 && LittleEndianFrom(out, 11) == (s4 + B * t5) / 0x10
    requires 0 <= s0 < B && 0 <= s1 < B && 0 <= s2 < B && 0 <= s3 < B && 0 <= s4 < B
    requires out[0] == ToByte(s0)
    requires out[1] == ToByte(s0 / 0x100)
    requires out[2] == ToByte(s0 / 0x10000 + s1 * 0x20)
    requires out[3] == ToByte(s1 / 0x8)
    requires out[4] == ToByte(s1 / 0x800)
    requires out[5] == ToByte(s1 / 0x80000 + s2 * 0x4)
    requires out[6] == ToByte(s2 / 0x40)
    requires out[7] == ToByte(s2 / 0x4000 + s3 * 0x80)
    requires out[8] == ToByte(s3 / 0x2)
    requires out[9] == ToByte(s3 / 0x200)
    requires out[10] == ToByte(s3 / 0x20000 + s4 * 0x10)
    ensures LittleEndian(out) == V6(s0, s1, s2, s3, s4, t5)
  {
    var t4 := s4 + B * t5;
    var t3 := s3 + B * t4;
    var t2 := s2 + B * t3;
    var t1 := s1 + B * t2;
    var t0 := s0 + B * t1;
    DivOne(s0);
    DivOne(t0);
    ByteAcross(out, 10, B, B, t3, s3, t4, s4, t5, 0x20000, 0x10, 0x10, 0x20000);
    ByteInside(out, 9, t3, s3, B, t4, 0x200, 0x10);
    ByteInside(out, 8, t3, s3, B, t4, 0x2, 0x1000);
    ByteAcross(out, 7, B, B, t2, s2, t3, s3, t4, 0x4000, 0x80, 0x2, 0x100000);
    ByteInside(out, 6, t2, s2, B, t3, 0x40, 0x80);
    ByteAcross(out, 5, B, B, t1, s1, t2, s2, t3, 0x80000, 0x4, 0x40, 0x8000);
    ByteInside(out, 4, t1, s1, B, t2, 0x800, 0x4);
    ByteInside(out, 3, t1, s1, B, t2, 0x8, 0x400);
    ByteAcross(out, 2, B, B, t0, s0, t1, s1, t2, 0x10000, 0x20, 0x8, 0x40000);
    ByteInside(out, 1, t0, s0, B, t1, 0x100, 0x20);
    ByteInside(out, 0, t0, s0, B, t1, 0x1, 0x2000);
  }

  lemma BytesOfLimbs(b: seq<Byte>, s0: int, s1: int, s2: int, s3: int, s4: int, s5: int, s6: int, s7: int, s8: int,
      s9: int, s10: int, s11: int)
    requires |b| == 32
    requires 0 <= s0 < B && 0 <= s1 < B && 0 <= s2 < B && 0 <= s3 < B && 0 <= s4 < B && 0 <= s5 < B && 0 <= s6 < B
      && 0 <= s7 < B && 0 <= s8 < B && 0 <= s9 < B && 0 <= s10 < B && 0 <= s11 <= B
    requires b[0] == ToByte(s0)
    requires b[1] == ToByte(s0 / 0x100)
    requires b[2] == ToByte(s0 / 0x10000 + s1 * 0x20)
    requires b[3] == ToByte(s1 / 0x8)
    requires b[4] == ToByte(s1 / 0x800)
    requires b[5] == ToByte(s1 / 0x80000 + s2 * 0x4)
    requires b[6] == ToByte(s2 / 0x40)
    requires b[7] == ToByte(s2 / 0x4000 + s3 * 0x80)
    requires b[8] == ToByte(s3 / 0x2)
    requires b[9] == ToByte(s3 / 0x200)
    requires b[10] == ToByte(s3 / 0x20000 + s4 * 0x10)
    requires b[11] == ToByte(s4 / 0x10)
    requires b[12] == ToByte(s4 / 0x1000)
    requires b[13] == ToByte(s4 / 0x100000 + s5 * 0x2)
    requires b[14] == ToByte(s5 / 0x80)
    requires b[15] == ToByte(s5 / 0x8000 + s6 * 0x40)
    requires b[16] == ToByte(s6 / 0x4)
    requires b[17] == ToByte(s6 / 0x400)
    requires b[18] == ToByte(s6 / 0x40000 + s7 * 0x8)
    requires b[19] == ToByte(s7 / 0x20)
    requires b[20] == ToByte(s7 / 0x2000)
    requires b[21] == ToByte(s8)
    requires b[22] == ToByte(s8 / 0x100)
    requires b[23] == ToByte(s8 / 0x10000 + s9 * 0x20)
    requires b[24] == ToByte(s9 / 0x8)
    requires b[25] == ToByte(s9 / 0x800)
    requires b[26] == ToByte(s9 / 0x80000 + s10 * 0x4)
    requires b[27] == ToByte(s10 / 0x40)
    requires b[28] == ToByte(s10 / 0x4000 + s11 * 0x80)
    requires b[29] == ToByte(s11 / 0x2)
    requires b[30] == ToByte(s11 / 0x200)
    requires b[31] == ToByte(s11 / 0x20000)
    ensures LittleEndian(b) == V12(s0, s1, s2, s3, s4, s5, s6, s7, s8, s9, s10, s11)
  {
    HighBytes(b, s8, s9, s10, s11);
    var t8 := V6(s8, s9, s10, s11, 0, 0);
    MiddleBytes(b, s4, s5, s6, s7, t8);
    LowBytes(b, s0, s1, s2, s3, s4, s5 + B * (s6 + B * (s7 + B * t8)));
  }

  method StoreLow(out: array<Byte>, s0: int, s1: int, s2: int, s3: int, s4: int)
    requires out.Length == 32
    requires 0 <= s0 < B && 0 <= s1 < B && 0 <= s2 < B && 0 <= s3 < B && 0 <= s4 < B
    modifies out
    ensures out[0] == ToByte(s0)
    ensures out[1] == ToByte(s0 / 0x100)
    ensures out[2] == ToByte(s0 / 0x10000 + s1 * 0x20)
    ensures out[3] == ToByte(s1 / 0x8)
    ensures out[4] == ToByte(s1 / 0x800)
    ensures out[5] == ToByte(s1 / 0x80000 + s2 * 0x4)
    ensures out[6] == ToByte(s2 / 0x40)
    ensures out[7] == ToByte(s2 / 0x4000 + s3 * 0x80)
    ensures out[8] == ToByte(s3 / 0x2)
    ensures out[9] == ToByte(s3 / 0x200)
    ensures out[10] == ToByte(s3 / 0x20000 + s4 * 0x10)
    ensures forall j :: 11 <= j < 32 ==> out[j] == old(out[j])
  {
    hide Pow2;
    hide ToByte;
    PowersOfTwo();
    var x2 := OrShifted(s0 / 0x10000, s1, 5, 0x20);
    assert x2 == s0 / 0x10000 + s1 * 0x20;
    var x5 := OrShifted(s1 / 0x80000, s2, 2, 0x4);
    assert x5 == s1 / 0x80000 + s2 * 0x4;
    var x7 := OrShifted(s2 / 0x4000, s3, 7, 0x80);
    assert x7 == s2 / 0x4000 + s3 * 0x80;
    var x10 := OrShifted(s3 / 0x20000, s4, 4, 0x10);
    assert x10 == s3 / 0x20000 + s4 * 0x10;
    out[0] := ToByte(s0);
    out[1] := ToByte(s0 / 0x100);
    out[2] := ToByte(x2);
    out[3] := ToByte(s1 / 0x8);
    out[4] := ToByte(s1 / 0x800);
    out[5] := ToByte(x5);
    out[6] := ToByte(s2 / 0x40);
    out[7] := ToByte(x7);
    out[8] := ToByte(s3 / 0x2);
    out[9] := ToByte(s3 / 0x200);
    out[10] := ToByte(x10);
  }

  method StoreMiddle(out: array<Byte>, s4: int, s5: int, s6: int, s7: int)
    requires out.Length == 32
    requires 0 <= s4 < B && 0 <= s5 < B && 0 <= s6 < B && 0 <= s7 < B
    modifies out
    ensures out[11] == ToByte(s4 / 0x10)
    ensures out[12] == ToByte(s4 / 0x1000)
    ensures out[13] == ToByte(s4 / 0x100000 + s5 * 0x2)
    ensures out[14] == ToByte(s5 / 0x80)
    ensures out[15] == ToByte(s5 / 0x8000 + s6 * 0x40)
    ensures out[16] == ToByte(s6 / 0x4)
    ensures out[17] == ToByte(s6 / 0x400)
    ensures out[18] == ToByte(s6 / 0x40000 + s7 * 0x8)
    ensures out[19] == ToByte(s7 / 0x20)
    ensures out[20] == ToByte(s7 / 0x2000)
    ensures forall j :: 0 <= j < 11 ==> out[j] == old(out[j])
    ensures forall j :: 21 <= j < 32 ==> out[j] == old(out[j])
  {
    hide Pow2;
    hide ToByte;
    PowersOfTwo();
    var x13 := OrShifted(s4 / 0x100000, s5, 1, 0x2);
    assert x13 == s4 / 0x100000 + s5 * 0x2;
    var x15 := OrShifted(s5 / 0x8000, s6, 6, 0x40);
    assert x15 == s5 / 0x8000 + s6 * 0x40;
    var x18 := OrShifted(s6 / 0x40000, s7, 3, 0x8);
    assert x18 == s6 / 0x40000 + s7 * 0x8;
    out[11] := ToByte(s4 / 0x10);
    out[12] := ToByte(s4 / 0x1000);
    out[13] := ToByte(x13);
    out[14] := ToByte(s5 / 0x80);
    out[15] := ToByte(x15);
    out[16] := ToByte(s6 / 0x4);
    out[17] := ToByte(s6 / 0x400);
    out[18] := ToByte(x18);
    out[19] := ToByte(s7 / 0x20);
    out[20] := ToByte(s7 / 0x2000);
  }

  method StoreHigh(out: array<Byte>, s8: int, s9: int, s10: int, s11: int)
    requires out.Length == 32
    requires 0 <= s8 < B && 0 <= s9 < B && 0 <= s10 < B && 0 <= s11 <= B
    modifies out
    ensures out[21] == ToByte(s8)
    ensures out[22] == ToByte(s8 / 0x100)
    ensures out[23] == ToByte(s8 / 0x10000 + s9 * 0x20)
    ensures out[24] == ToByte(s9 / 0x8)
    ensures out[25] == ToByte(s9 / 0x800)
    ensures out[26] == ToByte(s9 / 0x80000 + s10 * 0x4)
    ensures out[27] == ToByte(s10 / 0x40)
    ensures out[28] == ToByte(s10 / 0x4000 + s11 * 0x80)
    ensures out[29] == ToByte(s11 / 0x2)
    ensures out[30] == ToByte(s11 / 0x200)
    ensures out[31] == ToByte(s11 / 0x20000)
    ensures forall j :: 0 <= j < 21 ==> out[j] == old(out[j])
  {
    hide Pow2;
    hide ToByte;
    PowersOfTwo();
    var x23 := OrShifted(s8 / 0x10000, s9, 5, 0x20);
    assert x23 == s8 / 0x10000 + s9 * 0x20;
    var x26 := OrShifted(s9 / 0x80000, s10, 2, 0x4);
    assert x26 == s9 / 0x80000 + s10 * 0x4;
    var x28 := OrShifted(s10 / 0x4000, s11, 7, 0x80);
    assert x28 == s10 / 0x4000 + s11 * 0x80;
    out[21] := ToByte(s8);
    out[22] := ToByte(s8 / 0x100);
    out[23] := ToByte(x23);
    out[24] := ToByte(s9 / 0x8);
    out[25] := ToByte(s9 / 0x800);
    out[26] := ToByte(x26);
    out[27] := ToByte(s10 / 0x40);
    out[28] := ToByte(x28);
    out[29] := ToByte(s11 / 0x2);
    out[30] := ToByte(s11 / 0x200);
    out[31] := ToByte(s11 / 0x20000);
  }

  method Store(out: array<Byte>, s0: int, s1: int, s2: int, s3: int, s4: int, s5: int, s6: int, s7: int, s8: int,
      s9: int, s10: int, s11: int)
    requires out.Length == 32
    requires 0 <= s0 < B && 0 <= s1 < B && 0 <= s2 < B && 0 <= s3 < B && 0 <= s4 < B && 0 <= s5 < B && 0 <= s6 < B
      && 0 <= s7 < B && 0 <= s8 < B && 0 <= s9 < B && 0 <= s10 < B && 0 <= s11 <= B
    modifies out
    ensures LittleEndian(out[..]) == V12(s0, s1, s2, s3, s4, s5, s6, s7, s8, s9, s10, s11)
  {
    StoreLow(out, s0, s1, s2, s3, s4);
    StoreMiddle(out, s4, s5, s6, s7);
    StoreHigh(out, s8, s9, s10, s11);
    BytesOfLimbs(out[..], s0, s1, s2, s3, s4, s5, s6, s7, s8, s9, s10, s11);
  }

  /** Bytes 21 to 31 of a 32-byte scalar, as the source reads them: the top limb is not masked. */
  lemma LastFourLimbs(b: seq<Byte>)
    requires |b| == 32
    ensures LittleEndianFrom(b, 21)
         == V6(Mask21(Load3(b, 21)), Mask21(Load4(b, 23) / 0x20), Mask21(Load3(b, 26) / 4), Load4(b, 28) / 0x80, 0, 0)
  {
    LimbOf3(b, 21, 1, 8);
    Skip2(b, 21, 1, 0x20);
    LimbOf4(b, 23, 0x20, 0x40);
    Skip3(b, 23, 0x20, 4);
    LimbOf3(b, 26, 4, 2);
    Skip2(b, 26, 4, 0x80);
    FourBytes(b, 28);
  }

  /** Bytes 60 to 63 of a 64-byte scalar hold its top limb, which is not masked either. */
  lemma TopOfSixtyFour(b: seq<Byte>)
    requires |b| == 64
    ensures Load4(b, 60) / 8 == Mask21(Load3(b, 60) / 8) + B * LittleEndianFrom(b, 63)
  {
    assert LittleEndianFrom(b, 63) == At(b, 63) + 256 * LittleEndianFrom(b, 64);
    DivShift(Load3(b, 60), 8, B * At(b, 63));
  }


  /** Eight limbs from the 21 bytes at i; in the source i is 0, 21 and 42. */
  method LoadEight(b: seq<Byte>, i: nat)
    returns (s0: int, s1: int, s2: int, s3: int, s4: int, s5: int, s6: int, s7: int)
    requires i + 21 <= |b|
    ensures LittleEndianFrom(b, i) == V6(s0, s1, s2, s3, s4, s5) + B6 * (s6 + B * (s7 + B * LittleEndianFrom(b,
      i + 21)))
    ensures 0 <= s0 < B && 0 <= s1 < B && 0 <= s2 < B && 0 <= s3 < B && 0 <= s4 < B && 0 <= s5 < B && 0 <= s6 < B &&
      0 <= s7 < B && s7 == Mask21(Load3(b, i + 18) / 0x8)
  {
    var t;
    t := LoadThree(b, i);
    s0 := Masked21(t);
    t := LoadFour(b, i + 2);
    s1 := Masked21(t / 0x20);
    t := LoadThree(b, i + 5);
    s2 := Masked21(t / 0x4);
    t := LoadFour(b, i + 7);
    s3 := Masked21(t / 0x80);
    t := LoadFour(b, i + 10);
    s4 := Masked21(t / 0x10);
    t := LoadThree(b, i + 13);
    s5 := Masked21(t / 0x2);
    t := LoadFour(b, i + 15);
    s6 := Masked21(t / 0x40);
    t := LoadThree(b, i + 18);
    s7 := Masked21(t / 0x8);
    EightLimbs(b, i);
  }

  method LoadTop(b: seq<Byte>)
    returns (s16: int, s17: int, s18: int, s19: int, s20: int, s21: int, s22: int, s23: int)
    requires |b| == 64
    ensures LittleEndianFrom(b, 42) == V6(s16, s17, s18, s19, s20, s21) + B6 * (s22 + B * s23)
    ensures In(s16, 0x8000_0000) && In(s17, 0x8000_0000) && In(s18, 0x8000_0000) && In(s19, 0x8000_0000) && In(s20,
      0x8000_0000) && In(s21, 0x8000_0000) && In(s22, 0x8000_0000) && In(s23, 0x8000_0000)
  {
    s16, s17, s18, s19, s20, s21, s22, s23 := LoadEight(b, 42);
    TopOfSixtyFour(b);
    var t := LoadFour(b, 60);
    s23 := t / 8;
  }

  method LoadSixtyFour(b: seq<Byte>)
    returns (s0: int, s1: int, s2: int, s3: int, s4: int, s5: int, s6: int, s7: int, s8: int, s9: int, s10: int,
      s11: int, s12: int, s13: int, s14: int, s15: int, s16: int, s17: int, s18: int, s19: int, s20: int, s21: int,
      s22: int, s23: int)
    requires |b| == 64
    ensures LittleEndian(b) == V12(s0, s1, s2, s3, s4, s5, s6, s7, s8, s9, s10, s11) + C * V12(s12, s13, s14, s15,
      s16, s17, s18, s19, s20, s21, s22, s23)
    ensures In(s0, 0x8000_0000) && In(s1, 0x8000_0000) && In(s2, 0x8000_0000) && In(s3, 0x8000_0000) && In(s4,
      0x8000_0000) && In(s5, 0x8000_0000) && In(s6, 0x8000_0000) && In(s7, 0x8000_0000) && In(s8, 0x8000_0000) &&
      In(s9, 0x8000_0000) && In(s10, 0x8000_0000) && In(s11, 0x8000_0000) && In(s12, 0x8000_0000) && In(s13,
      0x8000_0000) && In(s14, 0x8000_0000) && In(s15, 0x8000_0000) && In(s16, 0x8000_0000) && In(s17, 0x8000_0000)
      && In(s18, 0x8000_0000) && In(s19, 0x8000_0000) && In(s20, 0x8000_0000) && In(s21, 0x8000_0000) && In(s22,
      0x8000_0000) && In(s23, 0x8000_0000)
  {
    s0, s1, s2, s3, s4, s5, s6, s7 := LoadEight(b, 0);
    s8, s9, s10, s11, s12, s13, s14, s15 := LoadEight(b, 21);
    s16, s17, s18, s19, s20, s21, s22, s23 := LoadTop(b);
    JoinLimbs(s0, s1, s2, s3, s4, s5, s6, s7, s8, s9, s10, s11, s12, s13, s14, s15, s16, s17, s18, s19, s20, s21,
      s22, s23, LittleEndianFrom(b, 21), LittleEndianFrom(b, 42));
  }

  lemma JoinLimbs(s0: int, s1: int, s2: int, s3: int, s4: int, s5: int, s6: int, s7: int, s8: int, s9: int, s10:
      int, s11: int, s12: int, s13: int, s14: int, s15: int, s16: int, s17: int, s18: int, s19: int, s20: int, s21:
      int, s22: int, s23: int, t8: int, t16: int)
    requires t8 == V6(s8, s9, s10, s11, s12, s13) + B6 * (s14 + B * (s15 + B * t16)) &&
      t16 == V6(s16, s17, s18, s19, s20, s21) + B6 * (s22 + B * s23)
    ensures V6(s0, s1, s2, s3, s4, s5) + B6 * (s6 + B * (s7 + B * t8)) == V12(s0, s1, s2, s3, s4, s5, s6, s7, s8,
      s9, s10, s11) + C * V12(s12, s13, s14, s15, s16, s17, s18, s19, s20, s21, s22, s23)
  {
  }

  /** s mod L, where s is given by 64 bytes. */
  method ScReduce(out: array<Byte>, s: array<Byte>)
    requires out.Length == 32 && s.Length == 64
    modifies out
    ensures LittleEndian(out[..]) == LittleEndian(old(s[..])) % L
  {
    var s0, s1, s2, s3, s4, s5, s6, s7, s8, s9, s10, s11, s12, s13, s14, s15, s16, s17, s18, s19, s20, s21, s22, s23
      := LoadSixtyFour(s[..]);
    s0, s1, s2, s3, s4, s5, s6, s7, s8, s9, s10, s11 := Reduce(s0, s1, s2, s3, s4, s5, s6, s7, s8, s9, s10, s11,
      s12, s13, s14, s15, s16, s17, s18, s19, s20, s21, s22, s23);
    Store(out, s0, s1, s2, s3, s4, s5, s6, s7, s8, s9, s10, s11);
  }

  // ---------------------------------------------------------------------------------------
  // Multiplication
  // ---------------------------------------------------------------------------------------

  lemma RowProduct(x: int, b0: int, b1: int, b2: int, b3: int, b4: int, b5: int, b6: int, b7: int, b8: int, b9: int,
      b10: int, b11: int)
    ensures x * V12(b0, b1, b2, b3, b4, b5, b6, b7, b8, b9, b10, b11) == V12(x * b0, x * b1, x * b2, x * b3, x * b4,
      x * b5, x * b6, x * b7, x * b8, x * b9, x * b10, x * b11)
  {
    var h := V6(b6, b7, b8, b9, b10, b11);
    assert x * (V6(b0, b1, b2, b3, b4, b5) + B6 * h) == x * V6(b0, b1, b2, b3, b4, b5) + B6 * (x * h);
    RowProduct6(x, b0, b1, b2, b3, b4, b5);
    RowProduct6(x, b6, b7, b8, b9, b10, b11);
  }

  lemma RowProduct6(x: int, a: int, b: int, c: int, d: int, e: int, f: int)
    ensures x * V6(a, b, c, d, e, f) == V6(x * a, x * b, x * c, x * d, x * e, x * f)
  {
    assert x * (e + B * f) == x * e + B * (x * f);
    assert x * (d + B * (e + B * f)) == x * d + B * (x * (e + B * f));
    assert x * (c + B * (d + B * (e + B * f))) == x * c + B * (x * (d + B * (e + B * f)));
    assert x * (b + B * (c + B * (d + B * (e + B * f)))) == x * b + B * (x * (c + B * (d + B * (e + B * f))));
    assert x * V6(a, b, c, d, e, f) == x * a + B * (x * (b + B * (c + B * (d + B * (e + B * f)))));
  }

  /** One product more in a sum of nonnegative products. */
  function Add(s: int, x: int, y: int): (r: int)
    requires 0 <= s <= 0x10_0000_0000_0000 && 0 <= x * y <= 0x4_0000_0000_0000
    ensures r == s + x * y
  {
    Int64(s + Int64(x * y))
  }

  /** A column before the products of one half of the limbs, and after it. */
  predicate Start(t: int) {
    0 <= t <= 0x4_0000_0200_0000
  }

  predicate Grown(t: int, p: int) {
    t <= p <= t + 0x4_0000_0000_0000
  }

  /** Adds the column sums of six limbs times twelve, product by product; the source does so for two halves. */
  method Columns(t0: int, t1: int, t2: int, t3: int, t4: int, t5: int, t6: int, t7: int, t8: int, t9: int, t10: int,
    t11: int, t12: int, t13: int, t14: int, t15: int, t16: int, a0: int, a1: int, a2: int, a3: int, a4: int, a5: int,
    b0: int, b1: int, b2: int, b3: int, b4: int, b5: int, b6: int, b7: int, b8: int, b9: int, b10: int, b11: int)
    returns (p0: int, p1: int, p2: int, p3: int, p4: int, p5: int, p6: int, p7: int, p8: int, p9: int, p10: int, p11:
        int, p12: int, p13: int, p14: int, p15: int, p16: int)
    requires Start(t0) && Start(t1) && Start(t2) && Start(t3) && Start(t4) && Start(t5) && Start(t6) && Start(t7)
    requires Start(t8) && Start(t9) && Start(t10) && Start(t11) && Start(t12) && Start(t13) && Start(t14)
    requires Start(t15) && Start(t16)
    requires 0 <= a0 < B && 0 <= a1 < B && 0 <= a2 < B && 0 <= a3 < B && 0 <= a4 < B && 0 <= a5 < 0x200_0000
    requires 0 <= b0 < B && 0 <= b1 < B && 0 <= b2 < B && 0 <= b3 < B && 0 <= b4 < B && 0 <= b5 < B && 0 <= b6 < B
      && 0 <= b7 < B && 0 <= b8 < B && 0 <= b9 < B && 0 <= b10 < B && 0 <= b11 < 0x200_0000
    ensures V12(p0, p1, p2, p3, p4, p5, p6, p7, p8, p9, p10, p11) + C * V6(p12, p13, p14, p15, p16, 0) == V12(t0, t1,
      t2, t3, t4, t5, t6, t7, t8, t9, t10, t11) + C * V6(t12, t13, t14, t15, t16, 0) + V6(a0, a1, a2, a3, a4, a5) *
      V12(b0, b1, b2, b3, b4, b5, b6, b7, b8, b9, b10, b11)
    ensures Grown(t0, p0) && Grown(t1, p1) && Grown(t2, p2) && Grown(t3, p3) && Grown(t4, p4) && Grown(t5, p5)
    ensures Grown(t6, p6) && Grown(t7, p7) && Grown(t8, p8) && Grown(t9, p9) && Grown(t10, p10) && Grown(t11, p11)
    ensures Grown(t12, p12) && Grown(t13, p13) && Grown(t14, p14) && Grown(t15, p15) && Grown(t16, p16)
  {
    hide Add;
    hide V6;
    RowBound(a0, B, b0, b1, b2, b3, b4, b5, b6, b7, b8, b9, b10, b11);
    RowBound(a1, B, b0, b1, b2, b3, b4, b5, b6, b7, b8, b9, b10, b11);
    RowBound(a2, B, b0, b1, b2, b3, b4, b5, b6, b7, b8, b9, b10, b11);
    RowBound(a3, B, b0, b1, b2, b3, b4, b5, b6, b7, b8, b9, b10, b11);
    RowBound(a4, B, b0, b1, b2, b3, b4, b5, b6, b7, b8, b9, b10, b11);
    RowBound(a5, 0x200_0000, b0, b1, b2, b3, b4, b5, b6, b7, b8, b9, b10, b11);
    p0 := Add(t0, a0, b0);
    p1 := Add(Add(t1, a0, b1), a1, b0);
    p2 := Add(Add(Add(t2, a0, b2), a1, b1), a2, b0);
    p3 := Add(Add(Add(Add(t3, a0, b3), a1, b2), a2, b1), a3, b0);
    p4 := Add(Add(Add(Add(Add(t4, a0, b4), a1, b3), a2, b2), a3, b1), a4, b0);
    p5 := Add(Add(Add(Add(Add(Add(t5, a0, b5), a1, b4), a2, b3), a3, b2), a4, b1), a5, b0);
    p6 := Add(Add(Add(Add(Add(Add(t6, a0, b6), a1, b5), a2, b4), a3, b3), a4, b2), a5, b1);
    p7 := Add(Add(Add(Add(Add(Add(t7, a0, b7), a1, b6), a2, b5), a3, b4), a4, b3), a5, b2);
    p8 := Add(Add(Add(Add(Add(Add(t8, a0, b8), a1, b7), a2, b6), a3, b5), a4, b4), a5, b3);
    p9 := Add(Add(Add(Add(Add(Add(t9, a0, b9), a1, b8), a2, b7), a3, b6), a4, b5), a5, b4);
    p10 := Add(Add(Add(Add(Add(Add(t10, a0, b10), a1, b9), a2, b8), a3, b7), a4, b6), a5, b5);
    p11 := Add(Add(Add(Add(Add(Add(t11, a0, b11), a1, b10), a2, b9), a3, b8), a4, b7), a5, b6);
    p12 := Add(Add(Add(Add(Add(t12, a1, b11), a2, b10), a3, b9), a4, b8), a5, b7);
    p13 := Add(Add(Add(Add(t13, a2, b11), a3, b10), a4, b9), a5, b8);
    p14 := Add(Add(Add(t14, a3, b11), a4, b10), a5, b9);
    p15 := Add(Add(t15, a4, b11), a5, b10);
    p16 := Add(t16, a5, b11);
    DifferenceOfLimbs(p0, p1, p2, p3, p4, p5, t0, t1, t2, t3, t4, t5);
    DifferenceOfLimbs(p6, p7, p8, p9, p10, p11, t6, t7, t8, t9, t10, t11);
    DifferenceOfLimbs(p12, p13, p14, p15, p16, 0, t12, t13, t14, t15, t16, 0);
    ColumnValue(a0, a1, a2, a3, a4, a5, b0, b1, b2, b3, b4, b5, b6, b7, b8, b9, b10, b11, p0 - t0, p1 - t1, p2 - t2,
      p3 - t3, p4 - t4, p5 - t5, p6 - t6, p7 - t7, p8 - t8, p9 - t9, p10 - t10, p11 - t11, p12 - t12, p13 - t13, p14 -
      t14, p15 - t15, p16 - t16);
  }

  lemma DifferenceOfLimbs(a: int, b: int, c: int, d: int, e: int, f: int, a': int, b': int, c': int, d': int,
      e': int, f': int)
    ensures V6(a - a', b - b', c - c', d - d', e - e', f - f') == V6(a, b, c, d, e, f) - V6(a', b', c', d', e', f')
  {
  }

  lemma ColumnValue(a0: int, a1: int, a2: int, a3: int, a4: int, a5: int, b0: int, b1: int, b2: int, b3: int, b4:
      int, b5: int, b6: int, b7: int, b8: int, b9: int, b10: int, b11: int, p0: int, p1: int, p2: int, p3: int, p4:
      int, p5: int, p6: int, p7: int, p8: int, p9: int, p10: int, p11: int, p12: int, p13: int, p14: int, p15: int,
      p16: int)
    requires p0 == a0 * b0
    requires p1 == a0 * b1 + a1 * b0
    requires p2 == a0 * b2 + a1 * b1 + a2 * b0
    requires p3 == a0 * b3 + a1 * b2 + a2 * b1 + a3 * b0
    requires p4 == a0 * b4 + a1 * b3 + a2 * b2 + a3 * b1 + a4 * b0
    requires p5 == a0 * b5 + a1 * b4 + a2 * b3 + a3 * b2 + a4 * b1 + a5 * b0
    requires p6 == a0 * b6 + a1 * b5 + a2 * b4 + a3 * b3 + a4 * b2 + a5 * b1
    requires p7 == a0 * b7 + a1 * b6 + a2 * b5 + a3 * b4 + a4 * b3 + a5 * b2
    requires p8 == a0 * b8 + a1 * b7 + a2 * b6 + a3 * b5 + a4 * b4 + a5 * b3
    requires p9 == a0 * b9 + a1 * b8 + a2 * b7 + a3 * b6 + a4 * b5 + a5 * b4
    requires p10 == a0 * b10 + a1 * b9 + a2 * b8 + a3 * b7 + a4 * b6 + a5 * b5
    requires p11 == a0 * b11 + a1 * b10 + a2 * b9 + a3 * b8 + a4 * b7 + a5 * b6
    requires p12 == a1 * b11 + a2 * b10 + a3 * b9 + a4 * b8 + a5 * b7
    requires p13 == a2 * b11 + a3 * b10 + a4 * b9 + a5 * b8
    requires p14 == a3 * b11 + a4 * b10 + a5 * b9
    requires p15 == a4 * b11 + a5 * b10
    requires p16 == a5 * b11
    ensures V12(p0, p1, p2, p3, p4, p5, p6, p7, p8, p9, p10, p11) + C * V6(p12, p13, p14, p15, p16, 0) == V6(a0, a1,
      a2, a3, a4, a5) * V12(b0, b1, b2, b3, b4, b5, b6, b7, b8, b9, b10, b11)
  {
    Rows(a0, a1, a2, a3, a4, a5, b0, b1, b2, b3, b4, b5, b6, b7, b8, b9, b10, b11);
  }

  lemma RowBound(x: int, m: int, b0: int, b1: int, b2: int, b3: int, b4: int, b5: int, b6: int, b7: int, b8: int,
      b9: int, b10: int, b11: int)
    requires 0 <= x <= m
    requires 0 <= b0 < B && 0 <= b1 < B && 0 <= b2 < B && 0 <= b3 < B && 0 <= b4 < B && 0 <= b5 < B && 0 <= b6 < B
      && 0 <= b7 < B && 0 <= b8 < B && 0 <= b9 < B && 0 <= b10 < B && 0 <= b11 < 0x200_0000
    ensures 0 <= x * b0 <= m * B && 0 <= x * b1 <= m * B && 0 <= x * b2 <= m * B && 0 <= x * b3 <= m * B && 0 <= x *
      b4 <= m * B && 0 <= x * b5 <= m * B && 0 <= x * b6 <= m * B && 0 <= x * b7 <= m * B && 0 <= x * b8 <= m * B &&
      0 <= x * b9 <= m * B && 0 <= x * b10 <= m * B && 0 <= x * b11 <= m * 0x200_0000
  {
    NatProductBound(x, b0, m, B);
    NatProductBound(x, b1, m, B);
    NatProductBound(x, b2, m, B);
    NatProductBound(x, b3, m, B);
    NatProductBound(x, b4, m, B);
    NatProductBound(x, b5, m, B);
    NatProductBound(x, b6, m, B);
    NatProductBound(x, b7, m, B);
    NatProductBound(x, b8, m, B);
    NatProductBound(x, b9, m, B);
    NatProductBound(x, b10, m, B);
    NatProductBound(x, b11, m, 0x200_0000);
  }

  lemma NatProductBound(x: int, y: int, m: int, n: int)
    requires 0 <= x <= m && 0 <= y <= n
    ensures 0 <= x * y <= m * n
  {
    MulMono(0, x, y);
    MulMono(x, m, y);
    assert m * y <= m * n;
  }

  lemma Rows(a0: int, a1: int, a2: int, a3: int, a4: int, a5: int, b0: int, b1: int, b2: int, b3: int, b4: int, b5:
      int, b6: int, b7: int, b8: int, b9: int, b10: int, b11: int)
    ensures V6(a0, a1, a2, a3, a4, a5) * V12(b0, b1, b2, b3, b4, b5, b6, b7, b8, b9, b10, b11) == V6(V12(a0 * b0, a0
      * b1, a0 * b2, a0 * b3, a0 * b4, a0 * b5, a0 * b6, a0 * b7, a0 * b8, a0 * b9, a0 * b10, a0 * b11), V12(a1 *
      b0, a1 * b1, a1 * b2, a1 * b3, a1 * b4, a1 * b5, a1 * b6, a1 * b7, a1 * b8, a1 * b9, a1 * b10, a1 * b11),
      V12(a2 * b0, a2 * b1, a2 * b2, a2 * b3, a2 * b4, a2 * b5, a2 * b6, a2 * b7, a2 * b8, a2 * b9, a2 * b10, a2 *
      b11), V12(a3 * b0, a3 * b1, a3 * b2, a3 * b3, a3 * b4, a3 * b5, a3 * b6, a3 * b7, a3 * b8, a3 * b9, a3 * b10,
      a3 * b11), V12(a4 * b0, a4 * b1, a4 * b2, a4 * b3, a4 * b4, a4 * b5, a4 * b6, a4 * b7, a4 * b8, a4 * b9, a4 *
      b10, a4 * b11), V12(a5 * b0, a5 * b1, a5 * b2, a5 * b3, a5 * b4, a5 * b5, a5 * b6, a5 * b7, a5 * b8, a5 * b9,
      a5 * b10, a5 * b11))
  {
    RowProduct(a0, b0, b1, b2, b3, b4, b5, b6, b7, b8, b9, b10, b11);
    RowProduct(a1, b0, b1, b2, b3, b4, b5, b6, b7, b8, b9, b10, b11);
    RowProduct(a2, b0, b1, b2, b3, b4, b5, b6, b7, b8, b9, b10, b11);
    RowProduct(a3, b0, b1, b2, b3, b4, b5, b6, b7, b8, b9, b10, b11);
    RowProduct(a4, b0, b1, b2, b3, b4, b5, b6, b7, b8, b9, b10, b11);
    RowProduct(a5, b0, b1, b2, b3, b4, b5, b6, b7, b8, b9, b10, b11);
    RowProduct6(V12(b0, b1, b2, b3, b4, b5, b6, b7, b8, b9, b10, b11), a0, a1, a2, a3, a4, a5);
  }

  lemma NoLimbs()
    ensures V6(0, 0, 0, 0, 0, 0) == 0
  {
  }

  /** The 23 column sums of a b + c. */
  method MultiplyAdd(a0: int, a1: int, a2: int, a3: int, a4: int, a5: int, a6: int, a7: int, a8: int, a9: int, a10:
      int, a11: int, b0: int, b1: int, b2: int, b3: int, b4: int, b5: int, b6: int, b7: int, b8: int, b9: int, b10:
      int, b11: int, c0: int, c1: int, c2: int, c3: int, c4: int, c5: int, c6: int, c7: int, c8: int, c9: int, c10:
      int, c11: int)
    returns (s0: int, s1: int, s2: int, s3: int, s4: int, s5: int, s6: int, s7: int, s8: int, s9: int, s10: int,
      s11: int, s12: int, s13: int, s14: int, s15: int, s16: int, s17: int, s18: int, s19: int, s20: int, s21: int,
      s22: int)
    requires 0 <= a0 < B && 0 <= a1 < B && 0 <= a2 < B && 0 <= a3 < B && 0 <= a4 < B && 0 <= a5 < B && 0 <= a6 < B
      && 0 <= a7 < B && 0 <= a8 < B && 0 <= a9 < B && 0 <= a10 < B && 0 <= a11 < 0x200_0000
    requires 0 <= b0 < B && 0 <= b1 < B && 0 <= b2 < B && 0 <= b3 < B && 0 <= b4 < B && 0 <= b5 < B && 0 <= b6 < B
      && 0 <= b7 < B && 0 <= b8 < B && 0 <= b9 < B && 0 <= b10 < B && 0 <= b11 < 0x200_0000
    requires 0 <= c0 < B && 0 <= c1 < B && 0 <= c2 < B && 0 <= c3 < B && 0 <= c4 < B && 0 <= c5 < B && 0 <= c6 < B
      && 0 <= c7 < B && 0 <= c8 < B && 0 <= c9 < B && 0 <= c10 < B && 0 <= c11 < 0x200_0000
    ensures V12(s0, s1, s2, s3, s4, s5, s6, s7, s8, s9, s10, s11) + C * V12(s12, s13, s14, s15, s16, s17, s18, s19,
      s20, s21, s22, 0) == V12(a0, a1, a2, a3, a4, a5, a6, a7, a8, a9, a10, a11) * V12(b0, b1, b2, b3, b4, b5, b6,
      b7, b8, b9, b10, b11) + V12(c0, c1, c2, c3, c4, c5, c6, c7, c8, c9, c10, c11)
    ensures In(s0, 0x9_0000_0000_0000) && In(s1, 0x9_0000_0000_0000) && In(s2, 0x9_0000_0000_0000) && In(s3,
      0x9_0000_0000_0000) && In(s4, 0x9_0000_0000_0000) && In(s5, 0x9_0000_0000_0000) && In(s6, 0x9_0000_0000_0000)
      && In(s7, 0x9_0000_0000_0000) && In(s8, 0x9_0000_0000_0000) && In(s9, 0x9_0000_0000_0000) && In(s10,
      0x9_0000_0000_0000) && In(s11, 0x9_0000_0000_0000) && In(s12, 0x9_0000_0000_0000) && In(s13,
      0x9_0000_0000_0000) && In(s14, 0x9_0000_0000_0000) && In(s15, 0x9_0000_0000_0000) && In(s16,
      0x9_0000_0000_0000) && In(s17, 0x9_0000_0000_0000) && In(s18, 0x9_0000_0000_0000) && In(s19,
      0x9_0000_0000_0000) && In(s20, 0x9_0000_0000_0000) && In(s21, 0x9_0000_0000_0000) && In(s22,
      0x9_0000_0000_0000)
  {
    hide V6;
    NoLimbs();
    s0, s1, s2, s3, s4, s5, s6, s7, s8, s9, s10, s11, s12, s13, s14, s15, s16 := Columns(c0, c1, c2, c3, c4, c5, c6,
      c7, c8, c9, c10, c11, 0, 0, 0, 0, 0, a0, a1, a2, a3, a4, a5, b0, b1, b2, b3, b4, b5, b6, b7, b8, b9, b10, b11);
    s6, s7, s8, s9, s10, s11, s12, s13, s14, s15, s16, s17, s18, s19, s20, s21, s22 := Columns(s6, s7, s8, s9, s10,
      s11, s12, s13, s14, s15, s16, 0, 0, 0, 0, 0, 0, a6, a7, a8, a9, a10, a11, b0, b1, b2, b3, b4, b5, b6, b7, b8,
      b9, b10, b11);
    ghost var lo, hi, w := V6(a0, a1, a2, a3, a4, a5), V6(a6, a7, a8, a9, a10, a11), V12(b0, b1, b2, b3, b4, b5, b6,
      b7, b8, b9, b10, b11);
    assert (lo + B6 * hi) * w == lo * w + B6 * (hi * w);
  }

  /** The carries out of the even limbs of the column sums. */
  method CarryEven(t0: int, t1: int, t2: int, t3: int, t4: int, t5: int, t6: int, t7: int, t8: int, t9: int, t10: int,
      t11: int, t12: int, t13: int, t14: int, t15: int, t16: int, t17: int, t18: int, t19: int, t20: int, t21: int,
      t22: int)
    returns (s0: int, s1: int, s2: int, s3: int, s4: int, s5: int, s6: int, s7: int, s8: int, s9: int, s10: int, s11:
        int, s12: int, s13: int, s14: int, s15: int, s16: int, s17: int, s18: int, s19: int, s20: int, s21: int, s22:
        int, s23: int)
    requires In(t0, 0x9_0000_0000_0000) && In(t1, 0x9_0000_0000_0000) && In(t2, 0x9_0000_0000_0000) && In(t3,
      0x9_0000_0000_0000) && In(t4, 0x9_0000_0000_0000) && In(t5, 0x9_0000_0000_0000) && In(t6, 0x9_0000_0000_0000) &&
      In(t7, 0x9_0000_0000_0000) && In(t8, 0x9_0000_0000_0000) && In(t9, 0x9_0000_0000_0000) && In(t10,
      0x9_0000_0000_0000) && In(t11, 0x9_0000_0000_0000) && In(t12, 0x9_0000_0000_0000) && In(t13, 0x9_0000_0000_0000)
      && In(t14, 0x9_0000_0000_0000) && In(t15, 0x9_0000_0000_0000) && In(t16, 0x9_0000_0000_0000) && In(t17,
      0x9_0000_0000_0000) && In(t18, 0x9_0000_0000_0000) && In(t19, 0x9_0000_0000_0000) && In(t20, 0x9_0000_0000_0000)
      && In(t21, 0x9_0000_0000_0000) && In(t22, 0x9_0000_0000_0000)
    ensures V12(s0, s1, s2, s3, s4, s5, s6, s7, s8, s9, s10, s11) + C * V12(s12, s13, s14, s15, s16, s17, s18, s19,
      s20, s21, s22, s23) == V12(t0, t1, t2, t3, t4, t5, t6, t7, t8, t9, t10, t11) + C * V12(t12, t13, t14, t15, t16,
      t17, t18, t19, t20, t21, t22, 0)
    ensures In(s0, 0x10_0000) && In(s1, 0x9_0001_0000_0000) && In(s2, 0x10_0000) && In(s3, 0x9_0001_0000_0000) &&
      In(s4, 0x10_0000) && In(s5, 0x9_0001_0000_0000) && In(s6, 0x10_0000) && In(s7, 0x9_0001_0000_0000) && In(s8,
      0x10_0000) && In(s9, 0x9_0001_0000_0000) && In(s10, 0x10_0000) && In(s11, 0x9_0001_0000_0000) && In(s12,
      0x10_0000) && In(s13, 0x9_0001_0000_0000) && In(s14, 0x10_0000) && In(s15, 0x9_0001_0000_0000) && In(s16,
      0x10_0000) && In(s17, 0x9_0001_0000_0000) && In(s18, 0x10_0000) && In(s19, 0x9_0001_0000_0000) && In(s20,
      0x10_0000) && In(s21, 0x9_0001_0000_0000) && In(s22, 0x10_0000) && In(s23, 0x5000_0000)
  {
    s0, s1, s2, s3, s4, s5, s6, s7, s8, s9, s10, s11, s12, s13, s14, s15, s16, s17, s18, s19, s20, s21, s22, s23 :=
      t0, t1, t2, t3, t4, t5, t6, t7, t8, t9, t10, t11, t12, t13, t14, t15, t16, t17, t18, t19, t20, t21, t22, 0;
    s0, s1 := CarryRound(s0, s1, 0x4800_0000);
    s2, s3 := CarryRound(s2, s3, 0x4800_0000);
    s4, s5 := CarryRound(s4, s5, 0x4800_0000);
    s6, s7 := CarryRound(s6, s7, 0x4800_0000);
    s8, s9 := CarryRound(s8, s9, 0x4800_0000);
    s10, s11 := CarryRound(s10, s11, 0x4800_0000);
    s12, s13 := CarryRound(s12, s13, 0x4800_0000);
    s14, s15 := CarryRound(s14, s15, 0x4800_0000);
    s16, s17 := CarryRound(s16, s17, 0x4800_0000);
    s18, s19 := CarryRound(s18, s19, 0x4800_0000);
    s20, s21 := CarryRound(s20, s21, 0x4800_0000);
    s22, s23 := CarryRound(s22, s23, 0x4800_0000);
  }

  /** The carries out of the odd limbs, but for the last. */
  method CarryOdd(t0: int, t1: int, t2: int, t3: int, t4: int, t5: int, t6: int, t7: int, t8: int, t9: int, t10: int,
      t11: int, t12: int, t13: int, t14: int, t15: int, t16: int, t17: int, t18: int, t19: int, t20: int, t21: int,
      t22: int, t23: int)
    returns (s0: int, s1: int, s2: int, s3: int, s4: int, s5: int, s6: int, s7: int, s8: int, s9: int, s10: int, s11:
        int, s12: int, s13: int, s14: int, s15: int, s16: int, s17: int, s18: int, s19: int, s20: int, s21: int, s22:
        int, s23: int)
    requires In(t0, 0x10_0000) && In(t1, 0x9_0001_0000_0000) && In(t2, 0x10_0000) && In(t3, 0x9_0001_0000_0000) &&
      In(t4, 0x10_0000) && In(t5, 0x9_0001_0000_0000) && In(t6, 0x10_0000) && In(t7, 0x9_0001_0000_0000) && In(t8,
      0x10_0000) && In(t9, 0x9_0001_0000_0000) && In(t10, 0x10_0000) && In(t11, 0x9_0001_0000_0000) && In(t12,
      0x10_0000) && In(t13, 0x9_0001_0000_0000) && In(t14, 0x10_0000) && In(t15, 0x9_0001_0000_0000) && In(t16,
      0x10_0000) && In(t17, 0x9_0001_0000_0000) && In(t18, 0x10_0000) && In(t19, 0x9_0001_0000_0000) && In(t20,
      0x10_0000) && In(t21, 0x9_0001_0000_0000) && In(t22, 0x10_0000) && In(t23, 0x5000_0000)
    ensures V12(s0, s1, s2, s3, s4, s5, s6, s7, s8, s9, s10, s11) + C * V12(s12, s13, s14, s15, s16, s17, s18, s19,
      s20, s21, s22, s23) == V12(t0, t1, t2, t3, t4, t5, t6, t7, t8, t9, t10, t11) + C * V12(t12, t13, t14, t15, t16,
      t17, t18, t19, t20, t21, t22, t23)
    ensures In(s0, 0x8000_0000) && In(s1, 0x8000_0000) && In(s2, 0x8000_0000) && In(s3, 0x8000_0000) && In(s4,
      0x8000_0000) && In(s5, 0x8000_0000) && In(s6, 0x8000_0000) && In(s7, 0x8000_0000) && In(s8, 0x8000_0000) &&
      In(s9, 0x8000_0000) && In(s10, 0x8000_0000) && In(s11, 0x8000_0000) && In(s12, 0x8000_0000) && In(s13,
      0x8000_0000) && In(s14, 0x8000_0000) && In(s15, 0x8000_0000) && In(s16, 0x8000_0000) && In(s17, 0x8000_0000) &&
      In(s18, 0x8000_0000) && In(s19, 0x8000_0000) && In(s20, 0x8000_0000) && In(s21, 0x8000_0000) && In(s22,
      0x8000_0000) && In(s23, 0x8000_0000)
  {
    s0, s1, s2, s3, s4, s5, s6, s7, s8, s9, s10, s11, s12, s13, s14, s15, s16, s17, s18, s19, s20, s21, s22, s23 :=
      t0, t1, t2, t3, t4, t5, t6, t7, t8, t9, t10, t11, t12, t13, t14, t15, t16, t17, t18, t19, t20, t21, t22, t23;
    s1, s2 := CarryRound(s1, s2, 0x4800_1000);
    s3, s4 := CarryRound(s3, s4, 0x4800_1000);
    s5, s6 := CarryRound(s5, s6, 0x4800_1000);
    s7, s8 := CarryRound(s7, s8, 0x4800_1000);
    s9, s10 := CarryRound(s9, s10, 0x4800_1000);
    s11, s12 := CarryRound(s11, s12, 0x4800_1000);
    s13, s14 := CarryRound(s13, s14, 0x4800_1000);
    s15, s16 := CarryRound(s15, s16, 0x4800_1000);
    s17, s18 := CarryRound(s17, s18, 0x4800_1000);
    s19, s20 := CarryRound(s19, s20, 0x4800_1000);
    s21, s22 := CarryRound(s21, s22, 0x4800_1000);
  }

  /** The carries with which ScMulAdd brings its column sums to limb size. */
  method CarryAll(t0: int, t1: int, t2: int, t3: int, t4: int, t5: int, t6: int, t7: int, t8: int, t9: int, t10:
      int, t11: int, t12: int, t13: int, t14: int, t15: int, t16: int, t17: int, t18: int, t19: int, t20: int, t21:
      int, t22: int)
    returns (s0: int, s1: int, s2: int, s3: int, s4: int, s5: int, s6: int, s7: int, s8: int, s9: int, s10: int,
      s11: int, s12: int, s13: int, s14: int, s15: int, s16: int, s17: int, s18: int, s19: int, s20: int, s21: int,
      s22: int, s23: int)
    requires In(t0, 0x9_0000_0000_0000) && In(t1, 0x9_0000_0000_0000) && In(t2, 0x9_0000_0000_0000) && In(t3,
      0x9_0000_0000_0000) && In(t4, 0x9_0000_0000_0000) && In(t5, 0x9_0000_0000_0000) && In(t6, 0x9_0000_0000_0000)
      && In(t7, 0x9_0000_0000_0000) && In(t8, 0x9_0000_0000_0000) && In(t9, 0x9_0000_0000_0000) && In(t10,
      0x9_0000_0000_0000) && In(t11, 0x9_0000_0000_0000) && In(t12, 0x9_0000_0000_0000) && In(t13,
      0x9_0000_0000_0000) && In(t14, 0x9_0000_0000_0000) && In(t15, 0x9_0000_0000_0000) && In(t16,
      0x9_0000_0000_0000) && In(t17, 0x9_0000_0000_0000) && In(t18, 0x9_0000_0000_0000) && In(t19,
      0x9_0000_0000_0000) && In(t20, 0x9_0000_0000_0000) && In(t21, 0x9_0000_0000_0000) && In(t22,
      0x9_0000_0000_0000)
    ensures V12(s0, s1, s2, s3, s4, s5, s6, s7, s8, s9, s10, s11) + C * V12(s12, s13, s14, s15, s16, s17, s18, s19,
      s20, s21, s22, s23) == V12(t0, t1, t2, t3, t4, t5, t6, t7, t8, t9, t10, t11) + C * V12(t12, t13, t14, t15, t16,
      t17, t18, t19, t20, t21, t22, 0)
    ensures In(s0, 0x8000_0000) && In(s1, 0x8000_0000) && In(s2, 0x8000_0000) && In(s3, 0x8000_0000) && In(s4,
      0x8000_0000) && In(s5, 0x8000_0000) && In(s6, 0x8000_0000) && In(s7, 0x8000_0000) && In(s8, 0x8000_0000) &&
      In(s9, 0x8000_0000) && In(s10, 0x8000_0000) && In(s11, 0x8000_0000) && In(s12, 0x8000_0000) && In(s13,
      0x8000_0000) && In(s14, 0x8000_0000) && In(s15, 0x8000_0000) && In(s16, 0x8000_0000) && In(s17, 0x8000_0000)
      && In(s18, 0x8000_0000) && In(s19, 0x8000_0000) && In(s20, 0x8000_0000) && In(s21, 0x8000_0000) && In(s22,
      0x8000_0000) && In(s23, 0x8000_0000)
  {
    hide V12;
    s0, s1, s2, s3, s4, s5, s6, s7, s8, s9, s10, s11, s12, s13, s14, s15, s16, s17, s18, s19, s20, s21, s22, s23 :=
      CarryEven(t0, t1, t2, t3, t4, t5, t6, t7, t8, t9, t10, t11, t12, t13, t14, t15, t16, t17, t18, t19, t20, t21,
      t22);
    s0, s1, s2, s3, s4, s5, s6, s7, s8, s9, s10, s11, s12, s13, s14, s15, s16, s17, s18, s19, s20, s21, s22, s23 :=
      CarryOdd(s0, s1, s2, s3, s4, s5, s6, s7, s8, s9, s10, s11, s12, s13, s14, s15, s16, s17, s18, s19, s20, s21,
      s22, s23);
  }

  method LoadThirtyTwo(b: seq<Byte>)
    returns (s0: int, s1: int, s2: int, s3: int, s4: int, s5: int, s6: int, s7: int, s8: int, s9: int, s10: int,
      s11: int)
    requires |b| == 32
    ensures LittleEndian(b) == V12(s0, s1, s2, s3, s4, s5, s6, s7, s8, s9, s10, s11)
    ensures 0 <= s0 < B && 0 <= s1 < B && 0 <= s2 < B && 0 <= s3 < B && 0 <= s4 < B && 0 <= s5 < B && 0 <= s6 < B &&
      0 <= s7 < B && 0 <= s8 < B && 0 <= s9 < B && 0 <= s10 < B && 0 <= s11 < 0x200_0000
  {
    s0, s1, s2, s3, s4, s5, s6, s7 := LoadEight(b, 0);
    var t := LoadThree(b, 21);
    s8 := Masked21(t);
    t := LoadFour(b, 23);
    s9 := Masked21(t / 0x20);
    t := LoadThree(b, 26);
    s10 := Masked21(t / 0x4);
    t := LoadFour(b, 28);
    s11 := t / 0x80;
    LastFourLimbs(b);
  }

  /** (a b + c) mod L */
  method ScMulAdd(s: array<Byte>, a: array<Byte>, b: array<Byte>, c: array<Byte>)
    requires s.Length == a.Length == b.Length == c.Length == 32
    modifies s
    ensures LittleEndian(s[..])
         == old(LittleEndian(a[..]) * LittleEndian(b[..]) + LittleEndian(c[..])) % L
  {
    var a0, a1, a2, a3, a4, a5, a6, a7, a8, a9, a10, a11 := LoadThirtyTwo(a[..]);
    var b0, b1, b2, b3, b4, b5, b6, b7, b8, b9, b10, b11 := LoadThirtyTwo(b[..]);
    var c0, c1, c2, c3, c4, c5, c6, c7, c8, c9, c10, c11 := LoadThirtyTwo(c[..]);
    var s0, s1, s2, s3, s4, s5, s6, s7, s8, s9, s10, s11, s12, s13, s14, s15, s16, s17, s18, s19, s20, s21, s22 :=
      MultiplyAdd(a0, a1, a2, a3, a4, a5, a6, a7, a8, a9, a10, a11, b0, b1, b2, b3, b4, b5, b6, b7, b8, b9, b10,
      b11, c0, c1, c2, c3, c4, c5, c6, c7, c8, c9, c10, c11);
    var s23;
    s0, s1, s2, s3, s4, s5, s6, s7, s8, s9, s10, s11, s12, s13, s14, s15, s16, s17, s18, s19, s20, s21, s22, s23 :=
      CarryAll(s0, s1, s2, s3, s4, s5, s6, s7, s8, s9, s10, s11, s12, s13, s14, s15, s16, s17, s18, s19, s20, s21,
      s22);
    s0, s1, s2, s3, s4, s5, s6, s7, s8, s9, s10, s11 := Reduce(s0, s1, s2, s3, s4, s5, s6, s7, s8, s9, s10, s11,
      s12, s13, s14, s15, s16, s17, s18, s19, s20, s21, s22, s23);
    Store(s, s0, s1, s2, s3, s4, s5, s6, s7, s8, s9, s10, s11);
  }

  // ---------------------------------------------------------------------------------------
  // The minimality test
  // ---------------------------------------------------------------------------------------

  /** L as four 64-bit words, least significant first. */
  const ORDER: seq<int> := [0x5812631a5cf5d3ed, 0x14def9dea2f79cd6, 0, 0x1000000000000000]

  /** The little-endian 64-bit word at byte 8 i. */
  function Word(b: seq<Byte>, i: nat): (w: int)
    requires 8 * i + 8 <= |b|
    ensures LittleEndianFrom(b, 8 * i) == w + 0x1_0000_0000_0000_0000 * LittleEndianFrom(b, 8 * i + 8)
    ensures 0 <= w < 0x1_0000_0000_0000_0000
  {
    FourBytes(b, 8 * i);
    FourBytes(b, 8 * i + 4);
    Load4(b, 8 * i) + 0x1_0000_0000 * Load4(b, 8 * i + 4)
  }

  method ScMinimal(scalar: array<Byte>) returns (minimal: bool)
    requires scalar.Length == 32
    ensures minimal <==> LittleEndian(scalar[..]) < L
  {
    var b := scalar[..];
    ghost var w0, w1, w2, w3 := Word(b, 0), Word(b, 1), Word(b, 2), Word(b, 3);
    assert LittleEndian(b)
        == w0 + 0x1_0000_0000_0000_0000 * (w1 + 0x1_0000_0000_0000_0000 * (w2 + 0x1_0000_0000_0000_0000 * w3));
    var i := 3;
    while true
      invariant 0 <= i <= 3
      invariant forall k :: i < k <= 3 ==> Word(b, k) == ORDER[k]
      decreases i
    {
      var v := Word(b, i);
      if v > ORDER[i] {
        return false;
      } else if v < ORDER[i] {
        break;
      } else if i == 0 {
        return false;
      }
      i := i - 1;
    }
    return true;
  }
}
