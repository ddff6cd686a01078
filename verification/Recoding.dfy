/**
  Signed-digit recodings of a 256-bit scalar: the in-place sliding window of slide and the radix-16
  digits of GeScalarMultBase.
*/
module Recoding {
  import opened Bits

  /** Value of the digits i, i + 1, ..., each w bits up from the one before. */
  function Radix(s: seq<int>, w: nat, i: nat): int
    decreases |s| - i
  {
    if i >= |s| then 0 else s[i] + Pow2(w) * Radix(s, w, i + 1)
  }

  lemma {:induction false} RadixSuffix(s: seq<int>, t: seq<int>, w: nat, i: nat)
    requires |s| == |t| && forall j :: i <= j < |s| ==> s[j] == t[j]
    ensures Radix(s, w, i) == Radix(t, w, i)
    decreases |s| - i
  {
    if i < |s| {
      RadixSuffix(s, t, w, i + 1);
    }
  }

  lemma ScaleDifference(a: int, u: int, v: int, b: int, c: int)
    requires u - v == b * c
    ensures a * u - a * v == (a * b) * c
  {
    Assoc(a, b, c);
    assert a * u - a * v == a * (u - v);
  }

  /** Changing digit k. */
  lemma {:induction false} RadixUpdate(s: seq<int>, w: nat, k: nat, x: int, i: nat)
    requires i <= k < |s|
    ensures Radix(s[k := x], w, i) == Radix(s, w, i) + Pow2(w * (k - i)) * (x - s[k])
    decreases k - i
  {
    if i == k {
      RadixSuffix(s, s[k := x], w, k + 1);
    } else {
      RadixUpdate(s, w, k, x, i + 1);
      assert w * (k - i) == w + w * (k - i - 1);
      Pow2Add(w, w * (k - i - 1));
      ScaleDifference(Pow2(w), Radix(s[k := x], w, i + 1), Radix(s, w, i + 1), Pow2(w * (k - i - 1)), x - s[k]);
    }
  }

  lemma {:induction false} RadixZeros(s: seq<int>, w: nat, i: nat)
    requires forall j :: i <= j < |s| ==> s[j] == 0
    ensures Radix(s, w, i) == 0
    decreases |s| - i
  {
    if i < |s| {
      RadixZeros(s, w, i + 1);
    }
  }

  /** An operation of the source on int8 values; the precondition is that it does not overflow. */
  function Int8(x: int): (r: int)
    requires -128 <= x < 128
  {
    x
  }

  // ---------------------------------------------------------------------------------------
  // The bits of a scalar
  // ---------------------------------------------------------------------------------------

  /** `1 & (a[i>>3] >> uint(i&7))` */
  function Bit(a: seq<Byte>, i: nat): (b: int)
    requires i < 8 * |a|
    ensures b == 0 || b == 1
  {
    (At(a, i / 8) / Pow2(i % 8)) % 2
  }

  ghost predicate AreBits(s: seq<int>, a: seq<Byte>) {
    |s| == 8 * |a| && forall i :: 0 <= i < |s| ==> s[i] == Bit(a, i)
  }

  lemma NextBit(x: int, m: int)
    requires m > 0
    ensures x / m == (x / m) % 2 + 2 * (x / (2 * m))
  {
    DivDiv(x, m, 2);
  }

  lemma ByteOfBits(x: int)
    requires 0 <= x < 256
    ensures x == x % 2 + 2 * ((x / 2) % 2) + 4 * ((x / 4) % 2) + 8 * ((x / 8) % 2)
               + 16 * ((x / 16) % 2 + 2 * ((x / 32) % 2) + 4 * ((x / 64) % 2) + 8 * ((x / 128) % 2))
  {
    DivOne(x);
    NextBit(x, 1);
    NextBit(x, 2);
    NextBit(x, 4);
    NextBit(x, 8);
    NextBit(x, 16);
    NextBit(x, 32);
    NextBit(x, 64);
  }

  lemma BitsOfByte(s: seq<int>, a: seq<Byte>, j: nat)
    requires AreBits(s, a) && j < |a|
    ensures s[8 * j] == At(a, j) % 2 && s[8 * j + 1] == (At(a, j) / 2) % 2
    ensures s[8 * j + 2] == (At(a, j) / 4) % 2 && s[8 * j + 3] == (At(a, j) / 8) % 2
    ensures s[8 * j + 4] == (At(a, j) / 16) % 2 && s[8 * j + 5] == (At(a, j) / 32) % 2
    ensures s[8 * j + 6] == (At(a, j) / 64) % 2 && s[8 * j + 7] == (At(a, j) / 128) % 2
  {
    PowersOfTwo();
    DivOne(At(a, j));
    var i := 8 * j;
    assert i / 8 == j && i % 8 == 0;
    assert (i + 1) / 8 == j && (i + 1) % 8 == 1;
    assert (i + 2) / 8 == j && (i + 2) % 8 == 2;
    assert (i + 3) / 8 == j && (i + 3) % 8 == 3;
    assert (i + 4) / 8 == j && (i + 4) % 8 == 4;
    assert (i + 5) / 8 == j && (i + 5) % 8 == 5;
    assert (i + 6) / 8 == j && (i + 6) % 8 == 6;
    assert (i + 7) / 8 == j && (i + 7) % 8 == 7;
  }

  lemma ByteFromBits(s: seq<int>, a: seq<Byte>, j: nat)
    requires AreBits(s, a) && j < |a|
    ensures At(a, j) == s[8 * j] + 2 * s[8 * j + 1] + 4 * s[8 * j + 2] + 8 * s[8 * j + 3]
                      + 16 * (s[8 * j + 4] + 2 * s[8 * j + 5] + 4 * s[8 * j + 6] + 8 * s[8 * j + 7])
  {
    BitsOfByte(s, a, j);
    ByteOfBits(At(a, j));
  }

  lemma FourDigits(s: seq<int>, i: nat)
    requires i + 4 <= |s|
    ensures Radix(s, 1, i) == s[i] + 2 * s[i + 1] + 4 * s[i + 2] + 8 * s[i + 3] + 16 * Radix(s, 1, i + 4)
  {
    PowersOfTwo();
    assert Radix(s, 1, i + 2) == s[i + 2] + 2 * Radix(s, 1, i + 3);
  }

  /** One byte of the value, from its bits. */
  lemma EightDigits(s: seq<int>, a: seq<Byte>, j: nat)
    requires AreBits(s, a) && j < |a|
    ensures Radix(s, 1, 8 * j) == At(a, j) + 256 * Radix(s, 1, 8 * (j + 1))
  {
    hide Radix;
    FourDigits(s, 8 * j);
    FourDigits(s, 8 * j + 4);
    ByteFromBits(s, a, j);
  }

  lemma NoDigits(s: seq<int>, a: seq<Byte>)
    requires AreBits(s, a)
    ensures Radix(s, 1, 8 * |a|) == 0
  {
  }

  /** The bits have the value of the bytes. */
  lemma {:induction false} BitsValue(s: seq<int>, a: seq<Byte>, j: nat)
    requires AreBits(s, a) && j <= |a|
    ensures Radix(s, 1, 8 * j) == LittleEndianFrom(a, j)
    decreases |a| - j
  {
    hide Radix;
    hide AreBits;
    if j < |a| {
      BitsValue(s, a, j + 1);
      EightDigits(s, a, j);
    } else {
      NoDigits(s, a);
    }
  }

  // ---------------------------------------------------------------------------------------
  // slide
  // ---------------------------------------------------------------------------------------

  lemma OddResidue(n: int)
    ensures (n % 32) % 2 == n % 2 && n == 32 * (n / 32) + n % 32
  {
    var q, w := n / 32, n % 32;
    ModUnique(n, 2, 16 * q + w / 2, w % 2);
  }

  /** The signed odd digit of n: the low five bits as a number in [-15, 15]. */
  function Digit(n: int): (d: int)
    requires n % 2 == 1
    ensures -15 <= d <= 15 && (n >= 0 ==> d <= n)
  {
    OddResidue(n);
    if n % 32 < 16 then n % 32 else n % 32 - 32
  }

  /**
    The signed width-5 recoding of n needs no more than k digits. The last four positions have no room for a
    carry and take their bits as they are.
  */
  predicate Fits(n: nat, k: nat)
    decreases k, n
  {
    if n == 0 then true
    else if k == 0 then false
    else if n % 2 == 0 then Fits(n / 2, k - 1)
    else if k <= 4 then n < Pow2(k)
    else Fits((n - Digit(n)) / 2, k - 1)
  }

  /** A carry out of the top does not fit. */
  lemma {:induction false} CarryDoesNotFit(m: nat)
    ensures !Fits(Pow2(m), m)
  {
    if m > 0 {
      CarryDoesNotFit(m - 1);
    }
  }

  /** Half of the range, as with a top byte of at most 127, always fits. */
  lemma {:induction false} HalfFits(n: nat, k: nat)
    requires k > 0 && n <= Pow2(k - 1)
    ensures Fits(n, k)
    decreases k
  {
    if n > 0 {
      SmallPowers();
      if n % 2 == 0 {
        HalfFits(n / 2, k - 1);
      } else if k > 5 {
        OddHalf(n, k);
        HalfFits((n - Digit(n)) / 2, k - 1);
      }
    }
  }

  /** Rounding an odd number to a multiple of 32 does not take it past a larger power of two. */
  lemma OddHalf(n: nat, k: nat)
    requires k > 5 && n % 2 == 1 && n <= Pow2(k - 1)
    ensures 0 <= (n - Digit(n)) / 2 <= Pow2(k - 2)
  {
    Pow2Add(5, k - 6);
    Pow2Add(1, k - 2);
    PowersOfTwo();
    OddResidue(n);
    var q := if n % 32 < 16 then n / 32 else n / 32 + 1;
    assert n - Digit(n) == 32 * q;
    assert q <= Pow2(k - 6);
  }

  lemma SmallPowers()
    ensures Pow2(0) == 1 && Pow2(1) == 2 && Pow2(2) == 4 && Pow2(3) == 8 && Pow2(4) == 16
  {
  }

  ghost predicate BitsFrom(s: seq<int>, i: nat) {
    forall j :: i <= j < |s| ==> s[j] == 0 || s[j] == 1
  }

  ghost predicate ZerosBetween(s: seq<int>, i: nat, n: nat) {
    forall j :: i <= j < n && j < |s| ==> s[j] == 0
  }

  ghost predicate SameBefore(s: seq<int>, t: seq<int>, i: nat) {
    |s| == |t| && forall j :: 0 <= j < i && j < |s| ==> s[j] == t[j]
  }

  lemma {:induction false} BitsBound(s: seq<int>, i: nat)
    requires i <= |s| && BitsFrom(s, i)
    ensures 0 <= Radix(s, 1, i) < Pow2(|s| - i)
    decreases |s| - i
  {
    if i < |s| {
      BitsBound(s, i + 1);
    }
  }

  lemma {:induction false} RadixPrefix(s: seq<int>, t: seq<int>, w: nat, k: nat, i: nat)
    requires i <= k <= |s| && SameBefore(s, t, k)
    ensures Radix(s, w, i) - Radix(t, w, i) == Pow2(w * (k - i)) * (Radix(s, w, k) - Radix(t, w, k))
    decreases k - i
  {
    if i < k {
      RadixPrefix(s, t, w, k, i + 1);
      assert w * (k - i) == w + w * (k - i - 1);
      Pow2Add(w, w * (k - i - 1));
      ScaleDifference(Pow2(w), Radix(s, w, i + 1), Radix(t, w, i + 1), Pow2(w * (k - i - 1)),
        Radix(s, w, k) - Radix(t, w, k));
    } else {
      assert w * 0 == 0;
    }
  }

  /** What falls off the top when a carry runs past the last digit. */
  function Lost(lost: bool, k: nat): int {
    if lost then Pow2(k) else 0
  }

  /** Adds 1 to digit start, carrying upwards; a carry out of digit 255 is dropped. The value is seen from digit i. */
  method CarryFrom(r: array<int>, start: nat, ghost i: nat) returns (ghost lost: bool)
    requires r.Length == 256 && i <= start < 256 && BitsFrom(r[..], start) && r[start] == 1
    modifies r
    ensures SameBefore(r[..], old(r[..]), start) && BitsFrom(r[..], start) && r[start] == 0
    ensures lost ==> ZerosBetween(r[..], start, 256)
    ensures Radix(r[..], 1, i) == old(Radix(r[..], 1, i)) + Pow2(start - i) - Lost(lost, 256 - i)
  {
    lost := true;
    var k := start;
    while k < 256
      invariant start <= k <= 256 && lost
      invariant SameBefore(r[..], old(r[..]), start) && BitsFrom(r[..], start) && ZerosBetween(r[..], start, k)
      invariant Radix(r[..], 1, i) == old(Radix(r[..], 1, i)) + Pow2(start - i) - Pow2(k - i)
      invariant k == start ==> r[start] == 1
    {
      if r[k] == 0 {
        RadixUpdate(r[..], 1, k, 1, i);
        assert r[..][k := 1] == r[..][..k] + [1] + r[..][k + 1..];
        lost := false;
        r[k] := 1;
        break;
      }
      RadixUpdate(r[..], 1, k, 0, i);
      r[k] := 0;
      k := k + 1;
    }
  }

  /** `r[i] += r[i+b] << b; r[i+b] = 0` */
  method Gather(r: array<int>, i: nat, b: nat)
    requires r.Length == 256 && 0 < b <= 6 && i + b < 256 && BitsFrom(r[..], i + 1) && r[i + b] == 1
    requires -128 <= r[i] + Pow2(b) < 128
    modifies r
    ensures SameBefore(r[..], old(r[..]), i) && r[i] == old(r[i]) + Pow2(b)
    ensures BitsFrom(r[..], i + 1)
    ensures old(ZerosBetween(r[..], i + 1, i + b)) ==> ZerosBetween(r[..], i + 1, i + b + 1)
    ensures Radix(r[..], 1, i) == old(Radix(r[..], 1, i))
  {
    ghost var s := r[..];
    r[i] := Int8(r[i] + r[i + b] * Pow2(b));
    ghost var t := r[..];
    assert t == s[i := s[i] + Pow2(b)];
    RadixUpdate(s, 1, i, s[i] + Pow2(b), i);
    RadixUpdate(t, 1, i + b, 0, i);
    r[i + b] := 0;
    assert r[..] == t[i + b := 0];
  }

  /** `r[i] -= r[i+b] << b` and the loop that carries into digit i + b. */
  method Borrow(r: array<int>, i: nat, b: nat) returns (ghost lost: bool)
    requires r.Length == 256 && 0 < b <= 6 && i + b < 256 && BitsFrom(r[..], i + 1) && r[i + b] == 1
    requires -128 <= r[i] - Pow2(b) < 128
    modifies r
    ensures SameBefore(r[..], old(r[..]), i) && r[i] == old(r[i]) - Pow2(b)
    ensures BitsFrom(r[..], i + 1)
    ensures old(ZerosBetween(r[..], i + 1, i + b)) ==> ZerosBetween(r[..], i + 1, i + b + 1)
    ensures old(ZerosBetween(r[..], i + 1, i + b)) && lost ==> ZerosBetween(r[..], i + 1, 256)
    ensures Radix(r[..], 1, i) == old(Radix(r[..], 1, i)) - Lost(lost, 256 - i)
  {
    ghost var s := r[..];
    r[i] := Int8(r[i] - r[i + b] * Pow2(b));
    ghost var t := r[..];
    assert t == s[i := s[i] - Pow2(b)];
    RadixUpdate(s, 1, i, s[i] - Pow2(b), i);
    lost := CarryFrom(r, i + b, i);
  }

  lemma Shifts(b: nat)
    requires 0 < b <= 6
    ensures b <= 3 ==> 2 * Pow2(b) <= 16 && Pow2(b + 1) == 2 * Pow2(b)
    ensures b == 4 ==> Pow2(b) == 16
    ensures b >= 5 ==> 32 <= Pow2(b) <= 64
    ensures Pow2(b) % 2 == 0
  {
    PowersOfTwo();
  }

  /** The loop over b for one digit that is not zero: gathers the bits above it into an odd signed digit. */
  method SlideAt(r: array<int>, i: nat) returns (ghost lost: bool)
    requires r.Length == 256 && i < 256 && BitsFrom(r[..], i) && r[i] == 1
    modifies r
    ensures SameBefore(r[..], old(r[..]), i) && BitsFrom(r[..], i + 1)
    ensures -15 <= r[i] <= 15 && r[i] % 2 == 1
    ensures ZerosBetween(r[..], i + 1, i + 5)
    ensures lost ==> i + 4 < 256 && ZerosBetween(r[..], i + 1, 256)
    ensures Radix(r[..], 1, i) == old(Radix(r[..], 1, i)) - Lost(lost, 256 - i)
  {
    lost := false;
    var b := 1;
    PowersOfTwo();
    hide Radix;
    hide Pow2;
    while b <= 6 && i + b < 256
      invariant 1 <= b <= 7
      invariant SameBefore(r[..], old(r[..]), i) && BitsFrom(r[..], i + 1) && ZerosBetween(r[..], i + 1, i + b)
      invariant -15 <= r[i] <= 15 && r[i] % 2 == 1 && (b <= 4 ==> !lost && 1 <= r[i] < Pow2(b))
      invariant lost ==> i + 4 < 256 && ZerosBetween(r[..], i + 1, 256)
      invariant Radix(r[..], 1, i) == old(Radix(r[..], 1, i)) - Lost(lost, 256 - i)
    {
      Shifts(b);
      if r[i + b] != 0 {
        if Int8(r[i] + Int8(r[i + b] * Pow2(b))) <= 15 {
          Gather(r, i, b);
        } else if Int8(r[i] - Int8(r[i + b] * Pow2(b))) >= -15 {
          lost := Borrow(r, i, b);
        } else {
          break;
        }
      }
      b := b + 1;
    }
  }

  lemma ZerosFollow(s: seq<int>, i: nat)
    requires i + 5 <= |s| && ZerosBetween(s, i + 1, i + 5)
    ensures Radix(s, 1, i + 1) % 16 == 0
  {
    FourDigits(s, i + 1);
  }

  /** One digit d taken off n, the rest, and what was lost at the top. */
  lemma OneDigit(n: nat, k: nat, d: int, rest: nat, lost: bool)
    requires k > 0 && n < Pow2(k) && n == d + 2 * rest + Lost(lost, k)
    requires if d == 0 then !lost else -15 <= d <= 15 && d % 2 == 1
    requires d != 0 ==> if k >= 5 then rest % 16 == 0 else rest == 0 && !lost
    requires lost ==> rest == 0
    ensures if lost then !Fits(n, k) else Fits(n, k) == Fits(rest, k - 1)
  {
    if d != 0 && k >= 5 {
      Pow2Add(5, k - 5);
      PowersOfTwo();
      ghost var top := if lost then Pow2(k - 5) else 0;
      DigitIs(n, d, rest / 16 + top);
      if lost {
        CarryDoesNotFit(k - 1);
      }
    }
  }

  lemma DigitIs(n: int, d: int, q: int)
    requires -15 <= d <= 15 && d % 2 == 1 && n == d + 32 * q
    ensures n % 2 == 1 && Digit(n) == d
  {
    ModUnique(n, 2, 16 * q + d / 2, 1);
    if d > 0 {
      ModUnique(n, 32, q, d);
    } else {
      ModUnique(n, 32, q - 1, d + 32);
    }
  }

  /** A loss seen from digit i is the same loss of the whole value. */
  lemma LossFromStart(s: seq<int>, t: seq<int>, i: nat, lost: bool)
    requires |s| == 256 && i < 256 && SameBefore(t, s, i)
    requires Radix(t, 1, i) == Radix(s, 1, i) - Lost(lost, 256 - i)
    ensures Radix(t, 1, 0) == Radix(s, 1, 0) - Lost(lost, 256)
  {
    hide Pow2;
    hide Radix;
    RadixPrefix(t, s, 1, i, 0);
    assert 1 * (i - 0) == i;
    Pow2Add(i, 256 - i);
    assert i + (256 - i) == 256;
    if lost {
      assert Pow2(i) * -Pow2(256 - i) == -Pow2(256);
    }
  }

  /** The state of slide after a digit that was not zero. */
  lemma AfterDigit(s: seq<int>, t: seq<int>, i: nat, lost: bool)
    requires |s| == |t| == 256 && i < 256 && BitsFrom(s, i) && BitsFrom(t, i + 1)
    requires -15 <= t[i] <= 15 && t[i] % 2 == 1 && ZerosBetween(t, i + 1, i + 5)
    requires lost ==> i + 4 < 256 && ZerosBetween(t, i + 1, 256)
    requires Radix(t, 1, i) == Radix(s, 1, i) - Lost(lost, 256 - i)
    ensures 0 <= Radix(s, 1, i) && 0 <= Radix(t, 1, i + 1) < Pow2(256 - (i + 1))
    ensures if lost then !Fits(Radix(s, 1, i), 256 - i)
            else Fits(Radix(s, 1, i), 256 - i) == Fits(Radix(t, 1, i + 1), 256 - (i + 1))
  {
    BitsBound(s, i);
    BitsBound(t, i + 1);
    if i + 5 <= 256 {
      ZerosFollow(t, i);
    } else {
      RadixZeros(t, 1, i + 1);
    }
    if lost {
      RadixZeros(t, 1, i + 1);
    }
    OneDigit(Radix(s, 1, i), 256 - i, t[i], Radix(t, 1, i + 1), lost);
  }

  lemma AfterZero(s: seq<int>, i: nat)
    requires |s| == 256 && i < 256 && BitsFrom(s, i) && s[i] == 0
    ensures 0 <= Radix(s, 1, i) && 0 <= Radix(s, 1, i + 1) < Pow2(256 - (i + 1))
    ensures Fits(Radix(s, 1, i), 256 - i) == Fits(Radix(s, 1, i + 1), 256 - (i + 1))
  {
    BitsBound(s, i);
    BitsBound(s, i + 1);
    OneDigit(Radix(s, 1, i), 256 - i, 0, Radix(s, 1, i + 1), false);
  }

  /** A digit of slide: zero, or odd and within [-15, 15]. */
  predicate IsDigit(d: int) {
    d == 0 || (-15 <= d <= 15 && d % 2 == 1)
  }

  ghost predicate SlideDigits(s: seq<int>, n: nat) {
    forall j :: 0 <= j < n && j < |s| ==> IsDigit(s[j])
  }

  method LoadBits(r: array<int>, a: array<Byte>)
    requires r.Length == 256 && a.Length == 32
    modifies r
    ensures AreBits(r[..], a[..])
  {
    var i := 0;
    while i < 256
      invariant 0 <= i <= 256
      invariant forall j :: 0 <= j < i ==> r[j] == Bit(a[..], j)
    {
      r[i] := Int8(Bit(a[..], i));
      i := i + 1;
    }
  }

  lemma BitsLoaded(s: seq<int>, a: seq<Byte>)
    requires |a| == 32 && AreBits(s, a)
    ensures SlideDigits(s, 0) && BitsFrom(s, 0)
    ensures Radix(s, 1, 0) == LittleEndian(a) && 0 <= Radix(s, 1, 0) < Pow2(256)
  {
    hide Pow2;
    hide Radix;
    BitsValue(s, a, 0);
    BitsBound(s, 0);
  }

  lemma NoneLeft(s: seq<int>)
    ensures Radix(s, 1, |s|) == 0 && Fits(0, 0)
  {
  }

  /** The digits of r have the value of a, or fall short of it by 2^256 when a does not fit. */
  method Slide(r: array<int>, a: array<Byte>)
    requires r.Length == 256 && a.Length == 32
    modifies r
    ensures SlideDigits(r[..], 256)
    ensures Radix(r[..], 1, 0) == LittleEndian(a[..]) - Lost(!Fits(LittleEndian(a[..]), 256), 256)
  {
    hide Pow2;
    hide Radix;
    hide Fits;
    hide AreBits;
    hide LittleEndianFrom;
    LoadBits(r, a);
    ghost var n := LittleEndian(a[..]);
    BitsLoaded(r[..], a[..]);
    ghost var lost := false;
    var i := 0;
    while i < 256
      invariant 0 <= i <= 256
      invariant SlideDigits(r[..], i) && BitsFrom(r[..], i)
      invariant Radix(r[..], 1, 0) == n - Lost(lost, 256)
      invariant 0 <= Radix(r[..], 1, i) < Pow2(256 - i)
      invariant if lost then !Fits(n, 256) && ZerosBetween(r[..], i, 256)
                else Fits(n, 256) == Fits(Radix(r[..], 1, i), 256 - i)
    {
      lost := Slide1(r, i, n, lost);
      i := i + 1;
    }
    NoneLeft(r[..]);
  }

  /** One turn of slide's outer loop. */
  method Slide1(r: array<int>, i: nat, ghost n: nat, ghost before: bool) returns (ghost lost: bool)
    requires r.Length == 256 && i < 256
    requires SlideDigits(r[..], i) && BitsFrom(r[..], i)
    requires Radix(r[..], 1, 0) == n - Lost(before, 256)
    requires 0 <= Radix(r[..], 1, i) < Pow2(256 - i)
    requires if before then !Fits(n, 256) && ZerosBetween(r[..], i, 256)
             else Fits(n, 256) == Fits(Radix(r[..], 1, i), 256 - i)
    modifies r
    ensures SlideDigits(r[..], i + 1) && BitsFrom(r[..], i + 1)
    ensures Radix(r[..], 1, 0) == n - Lost(lost, 256)
    ensures 0 <= Radix(r[..], 1, i + 1) < Pow2(256 - (i + 1))
    ensures if lost then !Fits(n, 256) && ZerosBetween(r[..], i + 1, 256)
            else Fits(n, 256) == Fits(Radix(r[..], 1, i + 1), 256 - (i + 1))
  {
    hide Pow2;
    hide Radix;
    hide Fits;
    lost := before;
    ghost var s := r[..];
    if r[i] != 0 {
      lost := SlideAt(r, i);
      LossFromStart(s, r[..], i, lost);
      AfterDigit(s, r[..], i, lost);
    } else {
      AfterZero(s, i);
    }
  }

  lemma {:induction false} TopByteBound(b: seq<Byte>, i: nat)
    requires i < |b| && b[|b| - 1] <= 127
    ensures LittleEndianFrom(b, i) < Pow2(8 * (|b| - i) - 1)
    decreases |b| - i
  {
    PowersOfTwo();
    if i + 1 < |b| {
      TopByteBound(b, i + 1);
      Pow2Add(8, 8 * (|b| - i - 1) - 1);
    }
  }

  /** What GeDoubleScalarMultVartime is called with: a top byte of at most 127 leaves room for the carry. */
  lemma TopByteFits(a: seq<Byte>)
    requires |a| == 32 && a[31] <= 127
    ensures Fits(LittleEndian(a), 256)
  {
    TopByteBound(a, 0);
    HalfFits(LittleEndian(a), 256);
  }

  lemma {:induction false} FitsShifted(n: nat, k: nat, m: nat)
    ensures Fits(n * Pow2(m), k + m) == Fits(n, k)
  {
    if m > 0 && n > 0 {
      FitsShifted(n, k, m - 1);
      var h := n * Pow2(m - 1);
      HalveShifted(n, Pow2(m - 1));
      assert Fits(2 * h, k + m) == Fits(h, k + m - 1);
    }
  }

  lemma HalveShifted(n: nat, p: int)
    requires n > 0 && p > 0
    ensures n * p > 0 && n * (2 * p) == 2 * (n * p)
  {
    MulMono(1, n, p);
  }

  lemma {:induction false} LeadingZeros(b: seq<Byte>, i: nat, k: nat)
    requires i <= k < |b| && forall j :: 0 <= j < k ==> b[j] == 0
    ensures LittleEndianFrom(b, i) == Pow2(8 * (k - i)) * LittleEndianFrom(b, k)
    decreases k - i
  {
    if i < k {
      LeadingZeros(b, i + 1, k);
      Pow2Add(8, 8 * (k - i - 1));
      PowersOfTwo();
      Assoc(256, Pow2(8 * (k - i - 1)), LittleEndianFrom(b, k));
    }
  }

  /** Not every scalar fits: for 2^255 + 2^251 the digits of slide have the value of the scalar minus 2^256. */
  lemma SlideFallsShort(a: seq<Byte>)
    requires |a| == 32 && a[31] == 0x88 && forall j :: 0 <= j < 31 ==> a[j] == 0
    ensures !Fits(LittleEndian(a), 256)
  {
    hide Pow2;
    LeadingZeros(a, 0, 31);
    assert LittleEndianFrom(a, 31) == 0x88 by {
      assert LittleEndianFrom(a, 32) == 0;
    }
    FitsShifted(0x88, 8, 248);
    EightBits();
  }

  lemma EightBits()
    ensures !Fits(0x88, 8)
  {
    SmallPowers();
    CarryDoesNotFit(4);
    assert Digit(17) == -15;
    assert Fits(17, 5) == Fits(16, 4);
  }

  // ---------------------------------------------------------------------------------------
  // Radix 16
  // ---------------------------------------------------------------------------------------

  ghost predicate AreNibbles(e: seq<int>, a: seq<Byte>, n: nat) {
    |e| == 2 * |a| && forall j :: 0 <= j < n && j < |a| ==> e[2 * j] == At(a, j) % 16 && e[2 * j + 1] == At(a, j) / 16
  }

  lemma {:induction false} NibblesValue(e: seq<int>, a: seq<Byte>, j: nat)
    requires AreNibbles(e, a, |a|) && j <= |a|
    ensures Radix(e, 4, 2 * j) == LittleEndianFrom(a, j)
    decreases |a| - j
  {
    PowersOfTwo();
    if j < |a| {
      NibblesValue(e, a, j + 1);
      assert Radix(e, 4, 2 * j + 1) == e[2 * j + 1] + 16 * Radix(e, 4, 2 * j + 2);
    }
  }

  ghost predicate Within(e: seq<int>, lo: int, hi: int, from: nat, to: nat) {
    forall j :: from <= j < to && j < |e| ==> lo <= e[j] <= hi
  }

  method LastDigit(e: array<int>, carry: int)
    requires e.Length == 64 && -8 <= e[63] <= 7 && 0 <= carry <= 1
    modifies e
    ensures forall j :: 0 <= j < 63 ==> e[j] == old(e[j])
    ensures e[63] == old(e[63]) + carry
    ensures Radix(e[..], 4, 0) == old(Radix(e[..], 4, 0)) + carry * Pow2(252)
  {
    hide Pow2;
    ghost var s := e[..];
    e[63] := Int8(e[63] + carry);
    assert e[..] == s[63 := s[63] + carry];
    RadixUpdate(s, 4, 63, s[63] + carry, 0);
  }

  method Nibbles(e: array<int>, a: array<Byte>)
    requires e.Length == 64 && a.Length == 32
    modifies e
    ensures AreNibbles(e[..], a[..], 32)
  {
    var i := 0;
    while i < 32
      invariant 0 <= i <= 32
      invariant AreNibbles(e[..], a[..], i)
    {
      var v := At(a[..], i);
      e[2 * i] := Int8(v % 16);
      e[2 * i + 1] := Int8((v / 16) % 16);
      i := i + 1;
    }
  }

  /** Sixty-four digits between -8 and 8 with the value of a. */
  method RadixSixteen(e: array<int>, a: array<Byte>)
    requires e.Length == 64 && a.Length == 32 && a[31] <= 127
    modifies e
    ensures Within(e[..], -8, 8, 0, 64)
    ensures Radix(e[..], 4, 0) == LittleEndian(a[..])
  {
    hide Pow2;
    hide Radix;
    Nibbles(e, a);
    ghost var n := LittleEndian(a[..]);
    NibblesValue(e[..], a[..], 0);
    NibbleRange(e[..], a[..]);
    var carry := 0;
    assert 0 * Pow2(0) == 0;
    var i := 0;
    while i < 63
      invariant 0 <= i <= 63 && 0 <= carry <= 1
      invariant Within(e[..], -8, 7, 0, i) && Within(e[..], 0, 15, i, 64) && e[63] <= 7
      invariant Radix(e[..], 4, 0) + carry * Pow2(4 * i) == n
    {
      carry := CarryDigit(e, i, carry);
      i := i + 1;
    }
    LastDigit(e, carry);
  }

  lemma NibbleRange(e: seq<int>, a: seq<Byte>)
    requires |a| == 32 && a[31] <= 127 && AreNibbles(e, a, 32)
    ensures Within(e, 0, 15, 0, 64) && e[63] <= 7
  {
    forall j | 0 <= j < 64
      ensures 0 <= e[j] <= 15
    {
      var t := j / 2;
      assert e[2 * t] == At(a, t) % 16 && e[2 * t + 1] == At(a, t) / 16;
      assert j == 2 * t || j == 2 * t + 1;
    }
    assert e[2 * 31 + 1] == At(a, 31) / 16;
  }

  /** `e[i] += carry; carry = (e[i] + 8) >> 4; e[i] -= carry << 4` */
  method CarryDigit(e: array<int>, i: nat, carry: int) returns (carry': int)
    requires e.Length == 64 && i < 63 && 0 <= carry <= 1 && 0 <= e[i] <= 15
    modifies e
    ensures forall j :: 0 <= j < 64 && j != i ==> e[j] == old(e[j])
    ensures -8 <= e[i] <= 7 && 0 <= carry' <= 1
    ensures Radix(e[..], 4, 0) + carry' * Pow2(4 * (i + 1)) == old(Radix(e[..], 4, 0)) + carry * Pow2(4 * i)
  {
    ghost var s := e[..];
    var x := Int8(e[i] + carry);
    carry' := Int8(x + 8) / 16;
    e[i] := Int8(x - Int8(carry' * 16));
    assert e[..] == s[i := e[i]];
    RadixUpdate(s, 4, i, e[i], 0);
    Pow2Add(4, 4 * i);
    PowersOfTwo();
    DigitValue(Pow2(4 * i), s[i], carry, carry');
  }

  lemma DigitValue(p: int, d: int, carry: int, carry': int)
    ensures p * ((d + carry - carry' * 16) - d) + carry' * (16 * p) == carry * p
  {
  }
}
