/**
  Machine-word vocabulary shared by the models: powers of two, bytes, the bitwise
  operators that the Go code applies to non-negative words, and little-endian values.
*/
module Bits {

  type Byte = x: int | 0 <= x < 256

  function Abs(x: int): (r: nat) {
    if x < 0 then -x else x
  }

  predicate In(x: int, b: int) {
    -b <= x <= b
  }

  function Pow2(n: nat): (p: int)
    ensures p >= 1
  {
    if n == 0 then 1 else 2 * Pow2(n - 1)
  }

  lemma {:induction false} Pow2Add(m: nat, n: nat)
    ensures Pow2(m + n) == Pow2(m) * Pow2(n)
  {
    if m != 0 {
      Pow2Add(m - 1, n);
    }
  }

  /** Bitwise `x | y` of two non-negative words. */
  function BitOr(x: nat, y: nat): (r: nat)
    decreases x + y
  {
    if x == 0 then y
    else if y == 0 then x
    else (if x % 2 == 1 || y % 2 == 1 then 1 else 0) + 2 * BitOr(x / 2, y / 2)
  }

  /** Bitwise `x & y` of two non-negative words. */
  function BitAnd(x: nat, y: nat): (r: nat)
    decreases x + y
  {
    if x == 0 || y == 0 then 0
    else (if x % 2 == 1 && y % 2 == 1 then 1 else 0) + 2 * BitAnd(x / 2, y / 2)
  }

  /** Words with no overlapping bits: or-ing them is adding them. */
  lemma {:induction false} BitOrIsSum(lo: nat, hi: nat, k: nat)
    requires lo < Pow2(k)
    ensures BitOr(lo, hi * Pow2(k)) == lo + hi * Pow2(k)
  {
    if k != 0 && lo != 0 && hi != 0 {
      var h := hi * Pow2(k - 1);
      assert hi * Pow2(k) == 2 * h;
      BitOrIsSum(lo / 2, hi, k - 1);
    }
  }

  /** Masking with 2^k - 1 keeps the low k bits. */
  lemma {:induction false} MaskIsMod(x: nat, k: nat)
    ensures BitAnd(x, Pow2(k) - 1) == x % Pow2(k)
  {
    if k != 0 {
      var m := Pow2(k - 1);
      MaskIsMod(x / 2, k - 1);
      ModDouble(x, m);
      BitAndOdd(x, m - 1);
    }
  }

  lemma BitAndOdd(x: nat, y: nat)
    ensures BitAnd(x, 2 * y + 1) == 2 * BitAnd(x / 2, y) + x % 2
  {
    assert (2 * y + 1) / 2 == y && (2 * y + 1) % 2 == 1;
  }

  lemma ModDouble(x: int, m: int)
    requires m > 0
    ensures x % (2 * m) == 2 * ((x / 2) % m) + x % 2
  {
    var h := x / 2;
    var q := h / m;
    assert h == q * m + h % m;
    assert q * (2 * m) == 2 * (q * m);
    ModUnique(x, 2 * m, q, 2 * (h % m) + x % 2);
  }

  lemma MulMono(a: int, b: int, c: int)
    requires a <= b && c >= 0
    ensures a * c <= b * c
  {
  }

  lemma ModUnique(x: int, m: int, q: int, r: int)
    requires m > 0 && 0 <= r < m && x == q * m + r
    ensures x / m == q && x % m == r
  {
    var d := x / m;
    if d > q {
      MulMono(q + 1, d, m);
    } else if d < q {
      MulMono(d + 1, q, m);
    }
  }

  lemma DivDiv(x: int, m: int, n: int)
    requires m > 0 && n > 0
    ensures m * n > 0 && (x / m) / n == x / (m * n)
  {
    var y, s := x / m, x % m;
    var q, t := y / n, y % n;
    assert m * n > 0 by { MulMono(1, m, n); }
    assert x == q * (m * n) + (m * t + s) by {
      assert x == m * y + s;
      assert m * y == m * (q * n) + m * t;
      assert m * (q * n) == q * (m * n);
    }
    assert 0 <= m * t + s < m * n by {
      MulMono(0, t, m);
      MulMono(t + 1, n, m);
    }
    ModUnique(x, m * n, q, m * t + s);
  }

  lemma DigitOfWord(T: int, w: int, m: int, h: int, s: int, base: int, e: int)
    requires T == w + m * h && s > 0 && base > 0 && m == s * (base * e)
    ensures (w / s) % base == (T / s) % base
  {
    var k := (e * h) * base;
    assert m * h == k * s by {
      Assoc(e, h, base);
      Assoc(base, e, h);
      Assoc(s, base * e, h);
    }
    DivShift(w, s, k);
    ModShift(w / s, base, e * h);
  }

  lemma DivShift(x: int, m: int, k: int)
    requires m > 0
    ensures (x + k * m) / m == x / m + k
  {
    assert (x / m + k) * m == (x / m) * m + k * m;
    ModUnique(x + k * m, m, x / m + k, x % m);
  }

  lemma ModShift(x: int, m: int, k: int)
    requires m > 0
    ensures (x + k * m) % m == x % m
  {
    assert (x / m + k) * m == (x / m) * m + k * m;
    ModUnique(x + k * m, m, x / m + k, x % m);
  }

  /** Byte i as an integer. */
  function At(b: seq<Byte>, i: nat): (r: int)
    requires i < |b|
    ensures 0 <= r < 256
  {
    b[i]
  }

  /** Value of the bytes i, i + 1, ..., least significant first. */
  function LittleEndianFrom(b: seq<Byte>, i: nat): (v: nat)
    decreases |b| - i
  {
    if i >= |b| then 0 else At(b, i) + 256 * LittleEndianFrom(b, i + 1)
  }

  function LittleEndian(b: seq<Byte>): (v: nat) {
    LittleEndianFrom(b, 0)
  }

  /** Byte j lies inside limb s of T = s + m h. */
  lemma ByteInside(out: seq<Byte>, j: nat, T: int, s: int, m: int, h: int, d: int, e: int)
    requires j < |out| && d > 0 && T == s + m * h && m == d * (256 * e)
    requires out[j] == ToByte(s / d) && LittleEndianFrom(out, j + 1) == T / (d * 256)
    ensures LittleEndianFrom(out, j) == T / d
  {
    DigitOfWord(T, s, m, h, d, 256, e);
    DivDiv(T, d, 256);
  }

  lemma DigitAcross(B: int, B': int, T: int, s: int, U: int, u: int, h: int, d: int, c: int, e: int)
    requires d > 0 && T == s + B * U && U == u + B' * h && B == d * c && B * B' == d * (256 * e)
    ensures (s / d + u * c) % 256 == (T / d) % 256
  {
    var w := s + u * B;
    assert u * B == (u * c) * d by { Assoc(u, c, d); }
    DivShift(s, d, u * c);
    assert T == w + (B * B') * h by {
      Assoc(B, B', h);
      assert B * U == u * B + B * (B' * h);
    }
    DigitOfWord(T, w, B * B', h, d, 256, e);
  }

  lemma RestAcross(B: int, T: int, s: int, U: int, d: int, d': int)
    requires d > 0 && d' > 0 && T == s + B * U && 0 <= s < B && d * 256 == B * d'
    ensures (T / d) / 256 == U / d'
  {
    DivDiv(T, d, 256);
    DivDiv(T, B, d');
    ModUnique(T, B, U, s);
  }

  /** Byte j starts in limb s and ends in limb u of T = s + B U with U = u + B' h. */
  lemma ByteAcross(out: seq<Byte>, j: nat, B: int, B': int, T: int, s: int, U: int, u: int, h: int, d: int, c: int,
      d': int, e: int)
    requires j < |out| && d > 0 && d' > 0 && T == s + B * U && 0 <= s < B && U == u + B' * h
    requires B == d * c && d * 256 == B * d' && B * B' == d * (256 * e)
    requires out[j] == ToByte(s / d + u * c) && LittleEndianFrom(out, j + 1) == U / d'
    ensures LittleEndianFrom(out, j) == T / d
  {
    DigitAcross(B, B', T, s, U, u, h, d, c, e);
    RestAcross(B, T, s, U, d, d');
  }

  lemma Assoc(x: int, y: int, z: int)
    ensures x * (y * z) == (x * y) * z
  {
  }

  lemma DivOne(x: int)
    ensures x / 1 == x
  {
  }

  lemma FourBytes(b: seq<Byte>, i: nat)
    requires i + 4 <= |b|
    ensures LittleEndianFrom(b, i)
         == At(b, i) + 0x100 * At(b, i + 1) + 0x1_0000 * At(b, i + 2) + 0x100_0000 * At(b, i + 3)
          + 0x1_0000_0000 * LittleEndianFrom(b, i + 4)
  {
    assert LittleEndianFrom(b, i + 2) == At(b, i + 2) + 256 * LittleEndianFrom(b, i + 3);
  }

  lemma PowersOfTwo()
    ensures Pow2(1) == 2 && Pow2(2) == 4 && Pow2(3) == 8 && Pow2(4) == 0x10
    ensures Pow2(5) == 0x20 && Pow2(6) == 0x40 && Pow2(7) == 0x80 && Pow2(8) == 0x100
    ensures Pow2(16) == 0x1_0000 && Pow2(21) == 0x20_0000 && Pow2(24) == 0x100_0000
  {
    Pow2Add(8, 8);
    Pow2Add(8, 16);
    Pow2Add(5, 16);
  }

  /**
    The word expressions of the source, in the arithmetic form that the proofs use; the lemmas after
    them show that this is what the bitwise operators compute.
  */

  /** `lo | hi << k`, with m = 2^k. */
  function OrShl(lo: nat, hi: nat, m: nat): (r: nat)
    requires lo < m
  {
    lo + hi * m
  }

  /** `uint(b[i]) | uint(b[i+1]) << 8 | uint(b[i+2]) << 16` */
  function Load3(b: seq<Byte>, i: nat): (r: nat)
    requires i + 3 <= |b|
  {
    At(b, i) + 0x100 * At(b, i + 1) + 0x1_0000 * At(b, i + 2)
  }

  function Load4(b: seq<Byte>, i: nat): (r: nat)
    requires i + 4 <= |b|
  {
    At(b, i) + 0x100 * At(b, i + 1) + 0x1_0000 * At(b, i + 2) + 0x100_0000 * At(b, i + 3)
  }

  /** `2097151 & x` */
  function Mask21(x: nat): (r: nat) {
    x % 0x20_0000
  }

  lemma LoadsAreOrs(b: seq<Byte>, i: nat)
    requires i + 3 <= |b|
    ensures Load3(b, i) == BitOr(BitOr(At(b, i), At(b, i + 1) * Pow2(8)), At(b, i + 2) * Pow2(16))
    ensures i + 4 <= |b| ==> Load4(b, i) == BitOr(Load3(b, i), At(b, i + 3) * Pow2(24))
  {
    PowersOfTwo();
    BitOrIsSum(At(b, i), At(b, i + 1), 8);
    BitOrIsSum(At(b, i) + 0x100 * At(b, i + 1), At(b, i + 2), 16);
    if i + 4 <= |b| {
      BitOrIsSum(Load3(b, i), At(b, i + 3), 24);
    }
  }

  lemma OrShlIsOr(lo: nat, hi: nat, k: nat)
    requires lo < Pow2(k)
    ensures OrShl(lo, hi, Pow2(k)) == BitOr(lo, hi * Pow2(k))
  {
    BitOrIsSum(lo, hi, k);
  }

  lemma Mask21IsAnd(x: nat)
    ensures Mask21(x) == BitAnd(x, 0x1f_ffff)
  {
    PowersOfTwo();
    MaskIsMod(x, 21);
  }

  // The same as the source computes them.

  method LoadThree(b: seq<Byte>, i: nat) returns (r: nat)
    requires i + 3 <= |b|
    ensures r == Load3(b, i)
  {
    hide BitOr;
    hide Load3;
    hide Pow2;
    LoadsAreOrs(b, i);
    r := BitOr(At(b, i), At(b, i + 1) * Pow2(8));
    r := BitOr(r, At(b, i + 2) * Pow2(16));
  }

  method LoadFour(b: seq<Byte>, i: nat) returns (r: nat)
    requires i + 4 <= |b|
    ensures r == Load4(b, i)
  {
    hide BitOr;
    hide Load3;
    hide Load4;
    hide Pow2;
    LoadsAreOrs(b, i);
    r := LoadThree(b, i);
    r := BitOr(r, At(b, i + 3) * Pow2(24));
  }

  method OrShifted(lo: nat, hi: nat, k: nat, ghost m: nat) returns (r: nat)
    requires m == Pow2(k) && lo < m
    ensures r == OrShl(lo, hi, m)
  {
    OrShlIsOr(lo, hi, k);
    r := BitOr(lo, hi * Pow2(k));
  }

  method Masked21(x: nat) returns (r: nat)
    ensures r == Mask21(x)
  {
    Mask21IsAnd(x);
    r := BitAnd(x, 0x1f_ffff);
  }

  /** Conversion to a byte, which keeps the low eight bits. */
  function ToByte(x: int): (r: Byte) {
    x % 256
  }

  /** An operation of the source on int32 values; the precondition is that it does not overflow. */
  function Int32(x: int): (r: int)
    requires -0x8000_0000 <= x < 0x8000_0000
  {
    x
  }

  /** An operation of the source on int64 values; the precondition is that it does not overflow. */
  function Int64(x: int): (r: int)
    requires -0x8000_0000_0000_0000 <= x < 0x8000_0000_0000_0000
  {
    x
  }
}
