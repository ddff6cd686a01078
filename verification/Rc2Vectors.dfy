/** The RC2 substitution table, and a test vector of RFC 2268, section 5, followed through key expansion and rounds. */
module Rc2Vectors {
  import opened Bits
  import opened Rc2
  import Words

  // ---------------------------------------------------------------------------------------
  // The substitution table
  // ---------------------------------------------------------------------------------------

  function Pick(i: int, a: Byte, b: Byte, c: Byte, d: Byte): Byte {
    if i < 2 then if i < 1 then a else b else if i < 3 then c else d
  }

  /** One of sixteen bytes. */
  function Nth(i: int, a0: Byte, a1: Byte, a2: Byte, a3: Byte, a4: Byte, a5: Byte, a6: Byte, a7: Byte, a8: Byte,
               a9: Byte, aA: Byte, aB: Byte, aC: Byte, aD: Byte, aE: Byte, aF: Byte): Byte
  {
    if i < 8 then if i < 4 then Pick(i, a0, a1, a2, a3) else Pick(i - 4, a4, a5, a6, a7)
    else if i < 12 then Pick(i - 8, a8, a9, aA, aB) else Pick(i - 12, aC, aD, aE, aF)
  }

  function Pi(x: Byte): Byte {
    if x < 0x10 then
      Nth(x, 0xd9, 0x78, 0xf9, 0xc4, 0x19, 0xdd, 0xb5, 0xed, 0x28, 0xe9, 0xfd, 0x79, 0x4a, 0xa0, 0xd8, 0x9d)
    else if x < 0x20 then
      Nth(x - 0x10, 0xc6, 0x7e, 0x37, 0x83, 0x2b, 0x76, 0x53, 0x8e, 0x62, 0x4c, 0x64, 0x88, 0x44, 0x8b, 0xfb, 0xa2)
    else if x < 0x30 then
      Nth(x - 0x20, 0x17, 0x9a, 0x59, 0xf5, 0x87, 0xb3, 0x4f, 0x13, 0x61, 0x45, 0x6d, 0x8d, 0x09, 0x81, 0x7d, 0x32)
    else if x < 0x40 then
      Nth(x - 0x30, 0xbd, 0x8f, 0x40, 0xeb, 0x86, 0xb7, 0x7b, 0x0b, 0xf0, 0x95, 0x21, 0x22, 0x5c, 0x6b, 0x4e, 0x82)
    else if x < 0x50 then
      Nth(x - 0x40, 0x54, 0xd6, 0x65, 0x93, 0xce, 0x60, 0xb2, 0x1c, 0x73, 0x56, 0xc0, 0x14, 0xa7, 0x8c, 0xf1, 0xdc)
    else if x < 0x60 then
      Nth(x - 0x50, 0x12, 0x75, 0xca, 0x1f, 0x3b, 0xbe, 0xe4, 0xd1, 0x42, 0x3d, 0xd4, 0x30, 0xa3, 0x3c, 0xb6, 0x26)
    else if x < 0x70 then
      Nth(x - 0x60, 0x6f, 0xbf, 0x0e, 0xda, 0x46, 0x69, 0x07, 0x57, 0x27, 0xf2, 0x1d, 0x9b, 0xbc, 0x94, 0x43, 0x03)
    else if x < 0x80 then
      Nth(x - 0x70, 0xf8, 0x11, 0xc7, 0xf6, 0x90, 0xef, 0x3e, 0xe7, 0x06, 0xc3, 0xd5, 0x2f, 0xc8, 0x66, 0x1e, 0xd7)
    else if x < 0x90 then
      Nth(x - 0x80, 0x08, 0xe8, 0xea, 0xde, 0x80, 0x52, 0xee, 0xf7, 0x84, 0xaa, 0x72, 0xac, 0x35, 0x4d, 0x6a, 0x2a)
    else if x < 0xa0 then
      Nth(x - 0x90, 0x96, 0x1a, 0xd2, 0x71, 0x5a, 0x15, 0x49, 0x74, 0x4b, 0x9f, 0xd0, 0x5e, 0x04, 0x18, 0xa4, 0xec)
    else if x < 0xb0 then
      Nth(x - 0xa0, 0xc2, 0xe0, 0x41, 0x6e, 0x0f, 0x51, 0xcb, 0xcc, 0x24, 0x91, 0xaf, 0x50, 0xa1, 0xf4, 0x70, 0x39)
    else if x < 0xc0 then
      Nth(x - 0xb0, 0x99, 0x7c, 0x3a, 0x85, 0x23, 0xb8, 0xb4, 0x7a, 0xfc, 0x02, 0x36, 0x5b, 0x25, 0x55, 0x97, 0x31)
    else if x < 0xd0 then
      Nth(x - 0xc0, 0x2d, 0x5d, 0xfa, 0x98, 0xe3, 0x8a, 0x92, 0xae, 0x05, 0xdf, 0x29, 0x10, 0x67, 0x6c, 0xba, 0xc9)
    else if x < 0xe0 then
      Nth(x - 0xd0, 0xd3, 0x00, 0xe6, 0xcf, 0xe1, 0x9e, 0xa8, 0x2c, 0x63, 0x16, 0x01, 0x3f, 0x58, 0xe2, 0x89, 0xa9)
    else if x < 0xf0 then
      Nth(x - 0xe0, 0x0d, 0x38, 0x34, 0x1b, 0xab, 0x33, 0xff, 0xb0, 0xbb, 0x48, 0x0c, 0x5f, 0xb9, 0xb1, 0xcd, 0x2e)
    else
      Nth(x - 0xf0, 0xc5, 0xf3, 0xdb, 0x47, 0xe5, 0xa5, 0x9c, 0x77, 0x0a, 0xa6, 0x20, 0x68, 0xfe, 0x7f, 0xc1, 0xad)
  }

  /** The substitution table of section 2. */
  const PI_TABLE: Table := seq(256, i requires 0 <= i < 256 => Pi(i))

  // ---------------------------------------------------------------------------------------
  // The bitwise operators on literal bytes and words, as bit vectors compute them
  // ---------------------------------------------------------------------------------------

  function Val(x: bv8): (v: int)
    ensures 0 <= v < 256
  {
    x as int
  }

  function Shifted(x: bv8): bv8 {
    x >> 1
  }

  function AndOf(x: bv8, y: bv8): bv8 {
    x & y
  }

  function XorOf(x: bv8, y: bv8): bv8 {
    x ^ y
  }

  lemma Half(x: bv8)
    ensures x as int % 2 == (x & 1) as int && x as int / 2 == (x >> 1) as int
  {
  }

  lemma ShiftedXor(x: bv8, y: bv8)
    ensures (x ^ y) >> 1 == (x >> 1) ^ (y >> 1) && (x ^ y) & 1 == (x & 1) ^ (y & 1)
    ensures x & 1 == 0 || x & 1 == 1
  {
  }

  lemma ShiftedAnd(x: bv8, y: bv8)
    ensures (x & y) >> 1 == (x >> 1) & (y >> 1) && (x & y) & 1 == (x & 1) & (y & 1)
    ensures x & 1 == 0 || x & 1 == 1
  {
  }

  lemma XorHalf(x: bv8, y: bv8)
    ensures Val(XorOf(x, y)) % 2 == Words.Differ(Val(x), Val(y))
    ensures Val(XorOf(x, y)) / 2 == Val(XorOf(Shifted(x), Shifted(y)))
    ensures Val(x) / 2 == Val(Shifted(x)) && Val(y) / 2 == Val(Shifted(y))
  {
    Half(x);
    Half(y);
    Half(x ^ y);
    ShiftedXor(x, y);
    ShiftedXor(y, x);
  }

  lemma AndHalf(x: bv8, y: bv8)
    ensures Val(AndOf(x, y)) % 2 == if Val(x) % 2 == 1 && Val(y) % 2 == 1 then 1 else 0
    ensures Val(AndOf(x, y)) / 2 == Val(AndOf(Shifted(x), Shifted(y)))
    ensures Val(x) / 2 == Val(Shifted(x)) && Val(y) / 2 == Val(Shifted(y))
  {
    Half(x);
    Half(y);
    Half(x & y);
    ShiftedAnd(x, y);
    ShiftedAnd(y, x);
  }

  lemma NoBits(x: bv8, y: bv8)
    requires Val(x) == 0 && Val(y) == 0
    ensures Val(XorOf(x, y)) == 0 && Val(AndOf(x, y)) == 0
  {
    assert x == 0 && y == 0;
  }

  lemma HalfBelow(x: int, n: nat)
    requires x < Pow2(n)
    ensures if n > 0 then x / 2 < Pow2(n - 1) else x <= 0
  {
  }

  lemma XorFromHalves(x: nat, y: nat, z: nat)
    requires z % 2 == Words.Differ(x, y) && z / 2 == Words.BitXor(x / 2, y / 2)
    ensures Words.BitXor(x, y) == z
  {
    hide Words.BitXor;
    Words.XorDigits(x, y);
  }

  lemma AndFromHalves(x: nat, y: nat, z: nat)
    requires z % 2 == (if x % 2 == 1 && y % 2 == 1 then 1 else 0) && z / 2 == BitAnd(x / 2, y / 2)
    ensures BitAnd(x, y) == z
  {
    hide BitAnd;
    AndStep(x, y);
  }

  lemma {:induction false} XorIsXor(x: bv8, y: bv8, n: nat)
    requires Val(x) < Pow2(n) && Val(y) < Pow2(n)
    ensures Words.BitXor(Val(x), Val(y)) == Val(XorOf(x, y))
    decreases n
  {
    hide *;
    HalfBelow(Val(x), n);
    HalfBelow(Val(y), n);
    if n > 0 {
      XorHalf(x, y);
      XorIsXor(Shifted(x), Shifted(y), n - 1);
      XorFromHalves(Val(x), Val(y), Val(XorOf(x, y)));
    } else {
      NoBits(x, y);
      Words.XorIsZero(0, 0);
    }
  }

  lemma {:induction false} AndIsAnd(x: bv8, y: bv8, n: nat)
    requires Val(x) < Pow2(n) && Val(y) < Pow2(n)
    ensures BitAnd(Val(x), Val(y)) == Val(AndOf(x, y))
    decreases n
  {
    hide *;
    HalfBelow(Val(x), n);
    HalfBelow(Val(y), n);
    if n > 0 {
      AndHalf(x, y);
      AndIsAnd(Shifted(x), Shifted(y), n - 1);
      AndFromHalves(Val(x), Val(y), Val(AndOf(x, y)));
    } else {
      NoBits(x, y);
      NoSelection();
    }
  }

  /** A conjunction digit group by digit group. */
  lemma {:induction false} AndSplit(a: nat, b: nat, c: nat, d: nat, k: nat)
    requires b < Pow2(k) && d < Pow2(k)
    ensures BitAnd(a * Pow2(k) + b, c * Pow2(k) + d) == BitAnd(a, c) * Pow2(k) + BitAnd(b, d)
    decreases k
  {
    hide BitAnd;
    if k > 0 {
      HalfBelow(b, k);
      HalfBelow(d, k);
      AndSplit(a, b / 2, c, d / 2, k - 1);
      AndSplitOnce(a, b, c, d, Pow2(k - 1));
    } else {
      NoSelection();
    }
  }

  lemma AndSplitOnce(a: nat, b: nat, c: nat, d: nat, q: nat)
    requires BitAnd(a * q + b / 2, c * q + d / 2) == BitAnd(a, c) * q + BitAnd(b / 2, d / 2)
    ensures BitAnd(a * (2 * q) + b, c * (2 * q) + d) == BitAnd(a, c) * (2 * q) + BitAnd(b, d)
  {
    hide BitAnd;
    HalfOfGroups(a, b, q);
    HalfOfGroups(c, d, q);
    AndStep(a * (2 * q) + b, c * (2 * q) + d);
    AndStep(b, d);
    Doubled(BitAnd(a, c), q);
  }

  lemma Doubled(m: int, q: int)
    ensures m * (2 * q) == 2 * (m * q)
  {
  }

  lemma HalfOfGroups(a: nat, b: nat, q: nat)
    ensures (a * (2 * q) + b) / 2 == a * q + b / 2 && (a * (2 * q) + b) % 2 == b % 2
  {
    Doubled(a, q);
  }

  function WordOf(hi: bv8, lo: bv8): Word {
    0x100 * Val(hi) + Val(lo)
  }

  lemma AndOfBytes(x1: bv8, x0: bv8, y1: bv8, y0: bv8)
    ensures BitAnd(WordOf(x1, x0), WordOf(y1, y0)) == WordOf(AndOf(x1, y1), AndOf(x0, y0))
  {
    hide AndOf;
    hide Val;
    hide BitAnd;
    hide Pow2;
    PowersOfTwo();
    AndIsAnd(x1, y1, 8);
    AndIsAnd(x0, y0, 8);
    AndSplit(Val(x1), Val(x0), Val(y1), Val(y0), 8);
  }

  lemma XorOfBytes(x: bv8, y: bv8)
    ensures Xor(Val(x), Val(y)) == Val(XorOf(x, y))
  {
    hide XorOf;
    hide Val;
    hide Pow2;
    PowersOfTwo();
    XorIsXor(x, y, 8);
  }

  lemma NotOfByte(x: bv8)
    ensures Val(!x) == 255 - Val(x)
  {
  }

  function High(x: bv16): bv8 {
    (x >> 8) as bv8
  }

  function Low(x: bv16): bv8 {
    (x & 0xff) as bv8
  }

  function Val16(x: bv16): Word {
    WordOf(High(x), Low(x))
  }

  function And16(x: bv16, y: bv16): bv16 {
    x & y
  }

  lemma BytesOfWord(x: bv16, y: bv16)
    ensures High(And16(x, y)) == AndOf(High(x), High(y)) && Low(And16(x, y)) == AndOf(Low(x), Low(y))
    ensures High(!x) == !High(x) && Low(!x) == !Low(x)
  {
  }

  lemma AndIsAnd16(x: bv16, y: bv16)
    ensures BitAnd(Val16(x), Val16(y)) == Val16(And16(x, y))
  {
    hide *;
    BytesOfWord(x, y);
    Val16Is(x);
    Val16Is(y);
    Val16Is(And16(x, y));
    AndOfBytes(High(x), Low(x), High(y), Low(y));
  }

  lemma Val16Is(x: bv16)
    ensures Val16(x) == WordOf(High(x), Low(x))
  {
  }

  lemma NotIsNot16(x: bv16)
    ensures Val16(!x) == Not(Val16(x))
  {
    hide High;
    hide Low;
    hide Val;
    BytesOfWord(x, x);
    NotOfByte(High(x));
    NotOfByte(Low(x));
  }

  // ---------------------------------------------------------------------------------------
  // The key of 33 bytes, 129 bits of which are effective
  // ---------------------------------------------------------------------------------------

  const KEY: seq<Byte> := [
    0x88, 0xbc, 0xa9, 0x0e, 0x90, 0x87, 0x5a, 0x7f, 0x0f, 0x79, 0xc3, 0x84, 0x62, 0x7b, 0xaf, 0xb2,
    0x16, 0xf8, 0x0a, 0x6f, 0x85, 0x92, 0x05, 0x84, 0xc4, 0x2f, 0xce, 0xb0, 0xbe, 0x25, 0x5d, 0xaf,
    0x1e
  ]

  function StretchedAt(i: nat): Byte
    requires i < 128
  {
    if i < 0x10 then
      Nth(i, 0x88, 0xbc, 0xa9, 0x0e, 0x90, 0x87, 0x5a, 0x7f, 0x0f, 0x79, 0xc3, 0x84, 0x62, 0x7b, 0xaf, 0xb2)
    else if i < 0x20 then
      Nth(i - 0x10, 0x16, 0xf8, 0x0a, 0x6f, 0x85, 0x92, 0x05, 0x84, 0xc4, 0x2f, 0xce, 0xb0, 0xbe, 0x25, 0x5d, 0xaf)
    else if i < 0x30 then
      Nth(i - 0x20, 0x1e, 0xcb, 0xf7, 0xc2, 0xd3, 0xda, 0xbf, 0x4c, 0x10, 0xa2, 0x88, 0x14, 0x4b, 0xf4, 0x03, 0x3a)
    else if i < 0x40 then
      Nth(i - 0x30, 0xb9, 0xc9, 0x5d, 0x57, 0x92, 0x8e, 0x17, 0x44, 0x05, 0xdf, 0xd8, 0xcb, 0x2f, 0xb1, 0xa8, 0xdd)
    else if i < 0x50 then
      Nth(i - 0x40, 0x35, 0x1f, 0x0c, 0xc4, 0xee, 0x5d, 0x0b, 0x29, 0xef, 0xad, 0xdc, 0x46, 0xd4, 0xa2, 0x49, 0xa7)
    else if i < 0x60 then
      Nth(i - 0x50, 0x38, 0xf3, 0x25, 0xea, 0xd6, 0x27, 0xb8, 0xc9, 0xa0, 0x51, 0xbd, 0x15, 0x0d, 0x5c, 0xa0, 0x73)
    else if i < 0x70 then
      Nth(i - 0x60, 0x12, 0x1c, 0x22, 0x7d, 0xd6, 0xe3, 0x54, 0x26, 0xdc, 0x10, 0x55, 0x8f, 0x9e, 0xc7, 0xf2, 0x22)
    else
      Nth(i - 0x70, 0xdf, 0x8e, 0xe8, 0xa0, 0x72, 0x73, 0xd0, 0x84, 0x8c, 0x09, 0xd4, 0x1a, 0x32, 0x82, 0x89, 0x45)
  }

  const STRETCHED: seq<Byte> := seq(128, i requires 0 <= i < 128 => StretchedAt(i))

  function ExpandedAt(i: nat): Byte
    requires i < 128
  {
    if i < 0x10 then
      Nth(i, 0x2c, 0x71, 0x9a, 0x49, 0x7d, 0x68, 0xa1, 0xea, 0x8e, 0x91, 0xb2, 0x83, 0x5c, 0x58, 0xa4, 0x16)
    else if i < 0x20 then
      Nth(i - 0x10, 0x3c, 0xa6, 0x09, 0x68, 0xeb, 0x46, 0x5a, 0x46, 0x0c, 0x86, 0x1b, 0xc5, 0x4f, 0x64, 0x78, 0x88)
    else if i < 0x30 then
      Nth(i - 0x20, 0xe5, 0xfb, 0xf0, 0x44, 0x10, 0x75, 0x3e, 0xd2, 0x68, 0x6c, 0x2f, 0x26, 0xbf, 0x42, 0x62, 0x89)
    else if i < 0x40 then
      Nth(i - 0x30, 0xfe, 0x0f, 0xee, 0x7c, 0x0c, 0xbe, 0x6f, 0xa4, 0xfa, 0x97, 0xe2, 0x5d, 0xe0, 0x23, 0x3a, 0x91)
    else if i < 0x50 then
      Nth(i - 0x40, 0x20, 0xf3, 0x4a, 0xfa, 0xbd, 0x54, 0x3a, 0xc4, 0x64, 0x55, 0x5c, 0x80, 0x21, 0x82, 0x8e, 0x23)
    else if i < 0x60 then
      Nth(i - 0x50, 0x89, 0x09, 0xbb, 0xf6, 0x7f, 0x64, 0x7a, 0x76, 0x67, 0x4f, 0xe1, 0xbc, 0xa5, 0xb8, 0xb1, 0x34)
    else if i < 0x70 then
      Nth(i - 0x60, 0x3d, 0xd7, 0x97, 0x1e, 0x0c, 0x99, 0x60, 0xc1, 0x72, 0x83, 0xc7, 0x68, 0xc9, 0x4d, 0x04, 0xd9)
    else
      Nth(i - 0x70, 0xdf, 0x8e, 0xe8, 0xa0, 0x72, 0x73, 0xd0, 0x84, 0x8c, 0x09, 0xd4, 0x1a, 0x32, 0x82, 0x89, 0x45)
  }

  const EXPANDED: seq<Byte> := seq(128, i requires 0 <= i < 128 => ExpandedAt(i))

  /** Bytes of which every one follows from those before it are the stretched key. */
  lemma {:induction false} StretchedFrom(pi: Table, key: seq<Byte>, l: seq<Byte>, n: nat)
    requires key != [] && |key| <= n <= |l| && l[..|key|] == key
    requires forall i :: |key| <= i < n ==> l[i] == pi[(At(l, i - 1) + At(l, i - |key|)) % 0x100]
    ensures Stretched(pi, key, n) == l[..n]
  {
    hide Stretched;
    if n > |key| {
      StretchedFrom(pi, key, l, n - 1);
      OneMoreByte(pi, key, n - 1);
    } else {
      WholeKey(pi, key, n);
    }
  }

  /** Bytes of which every one follows from those after it are filled backwards. */
  lemma {:induction false} BackwardFrom(pi: Table, l: seq<Byte>, n: nat, m: nat)
    requires m <= n < |l|
    requires forall i :: 0 <= i < n ==> l[i] == pi[Xor(l[i + 1], l[i + |l| - n])]
    ensures Backward(pi, l[n..], m) == l[n - m..]
    decreases m
  {
    hide Xor;
    hide Backward;
    if m == 0 {
      NoneInFront(pi, l[n..]);
    } else {
      BackwardFrom(pi, l, n, m - 1);
      OneMoreInFront(pi, l[n..], m - 1);
      var i := n - m;
      var rest := l[i + 1..];
      assert rest[0] == l[i + 1] && rest[|l| - n - 1] == l[i + |l| - n];
      assert l[i..] == [l[i]] + rest;
    }
  }

  predicate StretchedBy(i: nat, x: int)
    requires 33 <= i < 128
  {
    && (x == StretchedAt(i - 1) as int + StretchedAt(i - 33) || x + 0x100 == StretchedAt(i - 1) + StretchedAt(i - 33))
    && 0 <= x < 0x100 && StretchedAt(i) == Pi(x)
  }

  predicate FilledBy(i: nat, x: bv8, y: bv8, z: int)
    requires i < 111
  {
    && ExpandedAt(i + 1) == Val(x) && ExpandedAt(i + 17) == Val(y)
    && Val(XorOf(x, y)) == z && 0 <= z < 0x100 && ExpandedAt(i) == Pi(z)
  }

  lemma StretchedBytes2()
    ensures StretchedBy(33, 0xa6) && StretchedBy(34, 0x87) && StretchedBy(35, 0xa0) && StretchedBy(36, 0xd0)
    ensures StretchedBy(37, 0x63) && StretchedBy(38, 0x61) && StretchedBy(39, 0x19) && StretchedBy(40, 0xcb)
    ensures StretchedBy(41, 0x1f) && StretchedBy(42, 0x1b) && StretchedBy(43, 0x4b) && StretchedBy(44, 0x98)
    ensures StretchedBy(45, 0xad) && StretchedBy(46, 0x6f) && StretchedBy(47, 0xb2)
  {
  }

  lemma StretchedBytes3()
    ensures StretchedBy(48, 0xec) && StretchedBy(49, 0xcf) && StretchedBy(50, 0xc1) && StretchedBy(51, 0x67)
    ensures StretchedBy(52, 0xc6) && StretchedBy(53, 0x17) && StretchedBy(54, 0x20) && StretchedBy(55, 0x1c)
    ensures StretchedBy(56, 0xc8) && StretchedBy(57, 0xc9) && StretchedBy(58, 0x0e) && StretchedBy(59, 0xa6)
    ensures StretchedBy(60, 0x7b) && StretchedBy(61, 0xed) && StretchedBy(62, 0xd6) && StretchedBy(63, 0x05)
  {
  }

  lemma StretchedBytes4()
    ensures StretchedBy(64, 0x8c) && StretchedBy(65, 0x53) && StretchedBy(66, 0xea) && StretchedBy(67, 0x03)
    ensures StretchedBy(68, 0x86) && StretchedBy(69, 0xc1) && StretchedBy(70, 0x37) && StretchedBy(71, 0xca)
    ensures StretchedBy(72, 0x75) && StretchedBy(73, 0xff) && StretchedBy(74, 0x4f) && StretchedBy(75, 0x64)
    ensures StretchedBy(76, 0x5a) && StretchedBy(77, 0x1f) && StretchedBy(78, 0x96) && StretchedBy(79, 0x4c)
  {
  }

  lemma StretchedBytes5()
    ensures StretchedBy(80, 0xe1) && StretchedBy(81, 0xf1) && StretchedBy(82, 0xbc) && StretchedBy(83, 0x82)
    ensures StretchedBy(84, 0x41) && StretchedBy(85, 0x68) && StretchedBy(86, 0xb5) && StretchedBy(87, 0xcf)
    ensures StretchedBy(88, 0x0d) && StretchedBy(89, 0xa5) && StretchedBy(90, 0x30) && StretchedBy(91, 0x95)
    ensures StretchedBy(92, 0xe0) && StretchedBy(93, 0x3c) && StretchedBy(94, 0x0d) && StretchedBy(95, 0x48)
  {
  }

  lemma StretchedBytes6()
    ensures StretchedBy(96, 0x50) && StretchedBy(97, 0x47) && StretchedBy(98, 0x3b) && StretchedBy(99, 0x2e)
    ensures StretchedBy(100, 0x41) && StretchedBy(101, 0xc4) && StretchedBy(102, 0x40) && StretchedBy(103, 0x5f)
    ensures StretchedBy(104, 0x4f) && StretchedBy(105, 0xcb) && StretchedBy(106, 0xbd) && StretchedBy(107, 0x31)
    ensures StretchedBy(108, 0xd5) && StretchedBy(109, 0x72) && StretchedBy(110, 0x69) && StretchedBy(111, 0x3b)
  {
  }

  lemma StretchedBytes7()
    ensures StretchedBy(112, 0xc9) && StretchedBy(113, 0x17) && StretchedBy(114, 0x81) && StretchedBy(115, 0x0d)
    ensures StretchedBy(116, 0x8a) && StretchedBy(117, 0x48) && StretchedBy(118, 0x9a) && StretchedBy(119, 0x88)
    ensures StretchedBy(120, 0x4d) && StretchedBy(121, 0x2c) && StretchedBy(122, 0x5a) && StretchedBy(123, 0x91)
    ensures StretchedBy(124, 0x2f) && StretchedBy(125, 0x3f) && StretchedBy(126, 0xde) && StretchedBy(127, 0x29)
  {
  }

  lemma FilledBytes0()
    ensures FilledBy(0, 0x71, 0xa6, 0xd7) && FilledBy(1, 0x9a, 0x09, 0x93) && FilledBy(2, 0x49, 0x68, 0x21)
    ensures FilledBy(3, 0x7d, 0xeb, 0x96) && FilledBy(4, 0x68, 0x46, 0x2e) && FilledBy(5, 0xa1, 0x5a, 0xfb)
    ensures FilledBy(6, 0xea, 0x46, 0xac) && FilledBy(7, 0x8e, 0x0c, 0x82) && FilledBy(8, 0x91, 0x86, 0x17)
    ensures FilledBy(9, 0xb2, 0x1b, 0xa9) && FilledBy(10, 0x83, 0xc5, 0x46) && FilledBy(11, 0x5c, 0x4f, 0x13)
    ensures FilledBy(12, 0x58, 0x64, 0x3c) && FilledBy(13, 0xa4, 0x78, 0xdc) && FilledBy(14, 0x16, 0x88, 0x9e)
    ensures FilledBy(15, 0x3c, 0xe5, 0xd9)
  {
  }

  lemma FilledBytes1()
    ensures FilledBy(16, 0xa6, 0xfb, 0x5d) && FilledBy(17, 0x09, 0xf0, 0xf9) && FilledBy(18, 0x68, 0x44, 0x2c)
    ensures FilledBy(19, 0xeb, 0x10, 0xfb) && FilledBy(20, 0x46, 0x75, 0x33) && FilledBy(21, 0x5a, 0x3e, 0x64)
    ensures FilledBy(22, 0x46, 0xd2, 0x94) && FilledBy(23, 0x0c, 0x68, 0x64) && FilledBy(24, 0x86, 0x6c, 0xea)
    ensures FilledBy(25, 0x1b, 0x2f, 0x34) && FilledBy(26, 0xc5, 0x26, 0xe3) && FilledBy(27, 0x4f, 0xbf, 0xf0)
    ensures FilledBy(28, 0x64, 0x42, 0x26) && FilledBy(29, 0x78, 0x62, 0x1a) && FilledBy(30, 0x88, 0x89, 0x01)
    ensures FilledBy(31, 0xe5, 0xfe, 0x1b)
  {
  }

  lemma FilledBytes2()
    ensures FilledBy(32, 0xfb, 0x0f, 0xf4) && FilledBy(33, 0xf0, 0xee, 0x1e) && FilledBy(34, 0x44, 0x7c, 0x38)
    ensures FilledBy(35, 0x10, 0x0c, 0x1c) && FilledBy(36, 0x75, 0xbe, 0xcb) && FilledBy(37, 0x3e, 0x6f, 0x51)
    ensures FilledBy(38, 0xd2, 0xa4, 0x76) && FilledBy(39, 0x68, 0xfa, 0x92) && FilledBy(40, 0x6c, 0x97, 0xfb)
    ensures FilledBy(41, 0x2f, 0xe2, 0xcd) && FilledBy(42, 0x26, 0x5d, 0x7b) && FilledBy(43, 0xbf, 0xe0, 0x5f)
    ensures FilledBy(44, 0x42, 0x23, 0x61) && FilledBy(45, 0x62, 0x3a, 0x58) && FilledBy(46, 0x89, 0x91, 0x18)
    ensures FilledBy(47, 0xfe, 0x20, 0xde)
  {
  }

  lemma FilledBytes3()
    ensures FilledBy(48, 0x0f, 0xf3, 0xfc) && FilledBy(49, 0xee, 0x4a, 0xa4) && FilledBy(50, 0x7c, 0xfa, 0x86)
    ensures FilledBy(51, 0x0c, 0xbd, 0xb1) && FilledBy(52, 0xbe, 0x54, 0xea) && FilledBy(53, 0x6f, 0x3a, 0x55)
    ensures FilledBy(54, 0xa4, 0xc4, 0x60) && FilledBy(55, 0xfa, 0x64, 0x9e) && FilledBy(56, 0x97, 0x55, 0xc2)
    ensures FilledBy(57, 0xe2, 0x5c, 0xbe) && FilledBy(58, 0x5d, 0x80, 0xdd) && FilledBy(59, 0xe0, 0x21, 0xc1)
    ensures FilledBy(60, 0x23, 0x82, 0xa1) && FilledBy(61, 0x3a, 0x8e, 0xb4) && FilledBy(62, 0x91, 0x23, 0xb2)
    ensures FilledBy(63, 0x20, 0x89, 0xa9)
  {
  }

  lemma FilledBytes4()
    ensures FilledBy(64, 0xf3, 0x09, 0xfa) && FilledBy(65, 0x4a, 0xbb, 0xf1) && FilledBy(66, 0xfa, 0xf6, 0x0c)
    ensures FilledBy(67, 0xbd, 0x7f, 0xc2) && FilledBy(68, 0x54, 0x64, 0x30) && FilledBy(69, 0x3a, 0x7a, 0x40)
    ensures FilledBy(70, 0xc4, 0x76, 0xb2) && FilledBy(71, 0x64, 0x67, 0x03) && FilledBy(72, 0x55, 0x4f, 0x1a)
    ensures FilledBy(73, 0x5c, 0xe1, 0xbd) && FilledBy(74, 0x80, 0xbc, 0x3c) && FilledBy(75, 0x21, 0xa5, 0x84)
    ensures FilledBy(76, 0x82, 0xb8, 0x3a) && FilledBy(77, 0x8e, 0xb1, 0x3f) && FilledBy(78, 0x23, 0x34, 0x17)
    ensures FilledBy(79, 0x89, 0x3d, 0xb4)
  {
  }

  lemma FilledBytes5()
    ensures FilledBy(80, 0x09, 0xd7, 0xde) && FilledBy(81, 0xbb, 0x97, 0x2c) && FilledBy(82, 0xf6, 0x1e, 0xe8)
    ensures FilledBy(83, 0x7f, 0x0c, 0x73) && FilledBy(84, 0x64, 0x99, 0xfd) && FilledBy(85, 0x7a, 0x60, 0x1a)
    ensures FilledBy(86, 0x76, 0xc1, 0xb7) && FilledBy(87, 0x67, 0x72, 0x15) && FilledBy(88, 0x4f, 0x83, 0xcc)
    ensures FilledBy(89, 0xe1, 0xc7, 0x26) && FilledBy(90, 0xbc, 0x68, 0xd4) && FilledBy(91, 0xa5, 0xc9, 0x6c)
    ensures FilledBy(92, 0xb8, 0x4d, 0xf5) && FilledBy(93, 0xb1, 0x04, 0xb5) && FilledBy(94, 0x34, 0xd9, 0xed)
    ensures FilledBy(95, 0x3d, 0xdf, 0xe2)
  {
  }

  lemma FilledBytes6()
    ensures FilledBy(96, 0xd7, 0x8e, 0x59) && FilledBy(97, 0x97, 0xe8, 0x7f) && FilledBy(98, 0x1e, 0xa0, 0xbe)
    ensures FilledBy(99, 0x0c, 0x72, 0x7e) && FilledBy(100, 0x99, 0x73, 0xea) && FilledBy(101, 0x60, 0xd0, 0xb0)
    ensures FilledBy(102, 0xc1, 0x84, 0x45) && FilledBy(103, 0x72, 0x8c, 0xfe) && FilledBy(104, 0x83, 0x09, 0x8a)
    ensures FilledBy(105, 0xc7, 0xd4, 0x13) && FilledBy(106, 0x68, 0x1a, 0x72) && FilledBy(107, 0xc9, 0x32, 0xfb)
    ensures FilledBy(108, 0x4d, 0x82, 0xcf) && FilledBy(109, 0x04, 0x89, 0x8d) && FilledBy(110, 0xd9, 0x45, 0x9c)
  {
  }

  lemma KeyFirst()
    ensures STRETCHED[..33] == KEY
  {
    forall i | 0 <= i < 33 ensures STRETCHED[i] == KEY[i] {
    }
  }

  lemma StretchedRow(i: nat)
    requires 33 <= i < 128
    ensures exists x: int :: StretchedBy(i, x)
  {
    hide *;
    if i < 48 {
      StretchedBytes2();
    } else if i < 64 {
      StretchedBytes3();
    } else if i < 80 {
      StretchedBytes4();
    } else if i < 96 {
      StretchedBytes5();
    } else if i < 112 {
      StretchedBytes6();
    } else {
      StretchedBytes7();
    }
  }

  lemma FilledLow(i: nat)
    requires i < 64
    ensures exists x: bv8, y: bv8, z: int :: FilledBy(i, x, y, z)
  {
    hide *;
    if i < 16 {
      FilledBytes0();
    } else if i < 32 {
      FilledBytes1();
    } else if i < 48 {
      FilledBytes2();
    } else {
      FilledBytes3();
    }
  }

  lemma FilledHigh(i: nat)
    requires 64 <= i < 111
    ensures exists x: bv8, y: bv8, z: int :: FilledBy(i, x, y, z)
  {
    hide *;
    if i < 80 {
      FilledBytes4();
    } else if i < 96 {
      FilledBytes5();
    } else {
      FilledBytes6();
    }
  }

  lemma WrappedSum(x: Byte, y: Byte, z: Byte)
    requires z == x as int + y || z + 0x100 == x as int + y
    ensures z == (x as int + y) % 0x100
  {
  }

  lemma Lengths()
    ensures |PI_TABLE| == 256 && |KEY| == 33 && |STRETCHED| == 128 && |EXPANDED| == 128
  {
  }

  lemma NextStretched(i: nat)
    requires 33 <= i < 128
    ensures STRETCHED[i] == PI_TABLE[(At(STRETCHED, i - 1) + At(STRETCHED, i - 33)) % 0x100]
  {
    hide Pi;
    hide StretchedAt;
    StretchedRow(i);
    var x: int :| StretchedBy(i, x);
    WrappedSum(StretchedAt(i - 1), StretchedAt(i - 33), x);
  }

  lemma NextFilled(i: nat)
    requires i < 111
    ensures EXPANDED[i] == PI_TABLE[Xor(EXPANDED[i + 1], EXPANDED[i + 17])]
  {
    hide Pi;
    hide ExpandedAt;
    hide Xor;
    hide Val;
    if i < 64 {
      FilledLow(i);
    } else {
      FilledHigh(i);
    }
    var x: bv8, y: bv8, z: int :| FilledBy(i, x, y, z);
    XorOfBytes(x, y);
  }

  lemma StretchedKey()
    ensures Stretched(PI_TABLE, KEY, 128) == STRETCHED
  {
    hide *;
    Lengths();
    forall i | 33 <= i < 128 ensures STRETCHED[i] == PI_TABLE[(At(STRETCHED, i - 1) + At(STRETCHED, i - 33)) % 0x100] {
      NextStretched(i);
    }
    KeyFirst();
    StretchedFrom(PI_TABLE, KEY, STRETCHED, 128);
  }

  lemma FilledFront()
    ensures Backward(PI_TABLE, EXPANDED[111..], 111) == EXPANDED
  {
    hide *;
    Lengths();
    forall i | 0 <= i < 111 ensures EXPANDED[i] == PI_TABLE[Xor(EXPANDED[i + 1], EXPANDED[i + 17])] {
      NextFilled(i);
    }
    BackwardFrom(PI_TABLE, EXPANDED, 111, 111);
    assert EXPANDED[0..] == EXPANDED;
  }

  // ---------------------------------------------------------------------------------------
  // The key table
  // ---------------------------------------------------------------------------------------

  const KEYS: Key := KeyWords(EXPANDED)

  function KeyAt(j: nat): Word
    requires j < 64
  {
    ExpandedAt(2 * j) + 0x100 * ExpandedAt(2 * j + 1)
  }

  lemma LastBytes()
    ensures EXPANDED[111] == PI_TABLE[STRETCHED[111] % 2] && EXPANDED[112..] == STRETCHED[112..]
  {
    assert StretchedAt(111) == 0x22 && Pi(0) == ExpandedAt(111);
    forall i | 112 <= i < 128 ensures ExpandedAt(i) == StretchedAt(i) {
    }
  }

  lemma KeysOfVector()
    ensures KeyTable(PI_TABLE, KEY, 129) == KEYS
  {
    Lengths();
    StretchedKey();
    FilledFront();
    LastBytes();
    PowersOfTwo();
    var e := Effective(PI_TABLE, KEY, 129);
    assert [PI_TABLE[e[0]]] + e[1..] == EXPANDED[111..];
  }

  // ---------------------------------------------------------------------------------------
  // The rounds
  // ---------------------------------------------------------------------------------------

  // The block before and after every round.
  const B0 := Block(0x0000, 0x0000, 0x0000, 0x0000)
  const B1 := Block(0xe258, 0x2669, 0x562c, 0x2332)
  const B2 := Block(0xf49e, 0x3137, 0x04f7, 0x42a5)
  const B3 := Block(0x9923, 0x78d6, 0x302b, 0x4028)
  const B4 := Block(0xb05a, 0xf868, 0x2612, 0x1d0f)
  const B5 := Block(0x2143, 0x11ad, 0x412d, 0x1782)
  const B6 := Block(0x89c0, 0x82d9, 0xbe1b, 0xbbf1)
  const B7 := Block(0x6083, 0x9e85, 0x1659, 0x7ad7)
  const B8 := Block(0x0da4, 0xd940, 0xffe7, 0x10df)
  const B9 := Block(0xfeca, 0x2445, 0xc50a, 0x1b3c)
  const B10 := Block(0x2e66, 0xa6ef, 0xc9ea, 0xcc90)
  const B11 := Block(0xdd72, 0xcf8f, 0xc8e8, 0xb719)
  const B12 := Block(0x5f13, 0x790d, 0x63c0, 0x54d5)
  const B13 := Block(0x8542, 0xe18a, 0xaaab, 0xcb4f)
  const B14 := Block(0xfe68, 0xa4d9, 0x94f2, 0xdb1d)
  const B15 := Block(0x14eb, 0x4e25, 0x19be, 0x1c55)
  const B16 := Block(0xe523, 0x4e27, 0xdfd5, 0x700c)
  const B17 := Block(0xa453, 0xaa4d, 0x1c42, 0xa5b3)
  const B18 := Block(0x785b, 0xa4d3, 0xff3d, 0xf1f1)

  function Power(b: nat): nat {
    if b == 1 then 2 else if b == 2 then 4 else if b == 3 then 8 else 0x20
  }

  function OtherPower(b: nat): nat {
    if b == 1 then 0x8000 else if b == 2 then 0x4000 else if b == 3 then 0x2000 else 0x800
  }

  lemma PowersOfRotations(b: nat)
    requires b in {1, 2, 3, 5}
    ensures Power(b) == Pow2(b) && OtherPower(b) == Pow2(16 - b)
  {
    PowersOfTwo();
    Pow2Add(3, 8);
    Pow2Add(5, 8);
    Pow2Add(6, 8);
    Pow2Add(7, 8);
  }

  /** A word that the sum turns to: its last 16 - b bits come first. */
  lemma Turned(r: Word, mask: nat, b: nat, hi: nat, lo: nat)
    requires b in {1, 2, 3, 5} && lo < OtherPower(b) && hi < Power(b)
    requires r + mask - hi * OtherPower(b) - lo in {0, 0x1_0000, 0x2_0000, 0x3_0000}
    ensures MixWord(r, mask, b) == lo * Power(b) + hi
  {
    hide Rotl16;
    hide Pow2;
    PowersOfRotations(b);
    RotationSwaps(Wrap(r + mask), b, hi, lo);
  }

  /** What key word j and the bits that select and its complement pick make of a word. */
  lemma MixOf(j: nat, b: nat, r: Word, k: Word, select: bv16, one: bv16, zero: bv16,
              ones: Word, zeros: Word, hi: nat, lo: nat)
    requires j < 64 && KeyAt(j) == k
    requires Val16(And16(select, one)) == ones && Val16(And16(!select, zero)) == zeros
    requires b in {1, 2, 3, 5} && lo < OtherPower(b) && hi < Power(b)
    requires r + k + ones + zeros - hi * OtherPower(b) - lo in {0, 0x1_0000, 0x2_0000, 0x3_0000}
    ensures MixWord(r, Mask(KEYS[j], Val16(select), Val16(one), Val16(zero)), b) == lo * Power(b) + hi
  {
    hide BitAnd;
    hide MixWord;
    hide And16;
    hide Val16;
    hide KeyAt;
    KeyIs(j);
    AndIsAnd16(select, one);
    AndIsAnd16(!select, zero);
    NotIsNot16(select);
    Turned(r, Mask(KEYS[j], Val16(select), Val16(one), Val16(zero)), b, hi, lo);
  }

  lemma MashOf(r: Word, select: Word, j: nat, k: Word, m: Word)
    requires select % 64 == j && KeyAt(j) == k && Wrap(r + k) == m
    ensures Wrap(r + Selected(KEYS, select)) == m
  {
    hide KeyAt;
    hide Wrap;
    KeyIs(j);
  }

  lemma KeyIs(j: nat)
    requires j < 64
    ensures KEYS[j] == KeyAt(j)
  {
    hide ExpandedAt;
  }

  lemma Keys0()
    ensures KeyAt(0) == 0x712c && KeyAt(1) == 0x499a && KeyAt(2) == 0x687d && KeyAt(3) == 0xeaa1 && KeyAt(4) == 0x918e
    ensures KeyAt(5) == 0x83b2 && KeyAt(6) == 0x585c && KeyAt(7) == 0x16a4 && KeyAt(8) == 0xa63c && KeyAt(9) == 0x6809
    ensures KeyAt(10) == 0x46eb && KeyAt(11) == 0x465a && KeyAt(12) == 0x860c && KeyAt(13) == 0xc51b
    ensures KeyAt(14) == 0x644f && KeyAt(15) == 0x8878
  {
  }

  lemma Keys1()
    ensures KeyAt(16) == 0xfbe5 && KeyAt(17) == 0x44f0 && KeyAt(18) == 0x7510 && KeyAt(19) == 0xd23e
    ensures KeyAt(20) == 0x6c68 && KeyAt(21) == 0x262f && KeyAt(22) == 0x42bf && KeyAt(23) == 0x8962
    ensures KeyAt(24) == 0x0ffe && KeyAt(25) == 0x7cee && KeyAt(26) == 0xbe0c && KeyAt(27) == 0xa46f
    ensures KeyAt(28) == 0x97fa && KeyAt(29) == 0x5de2 && KeyAt(30) == 0x23e0 && KeyAt(31) == 0x913a
  {
  }

  lemma Keys2()
    ensures KeyAt(32) == 0xf320 && KeyAt(33) == 0xfa4a && KeyAt(34) == 0x54bd && KeyAt(35) == 0xc43a
    ensures KeyAt(36) == 0x5564 && KeyAt(37) == 0x805c && KeyAt(38) == 0x8221 && KeyAt(39) == 0x238e
    ensures KeyAt(40) == 0x0989 && KeyAt(41) == 0xf6bb && KeyAt(42) == 0x647f && KeyAt(43) == 0x767a
    ensures KeyAt(44) == 0x4f67 && KeyAt(45) == 0xbce1 && KeyAt(46) == 0xb8a5 && KeyAt(47) == 0x34b1
  {
  }

  lemma Keys3()
    ensures KeyAt(48) == 0xd73d && KeyAt(49) == 0x1e97 && KeyAt(50) == 0x990c && KeyAt(51) == 0xc160
    ensures KeyAt(52) == 0x8372 && KeyAt(53) == 0x68c7 && KeyAt(54) == 0x4dc9 && KeyAt(55) == 0xd904
    ensures KeyAt(56) == 0x8edf && KeyAt(57) == 0xa0e8 && KeyAt(58) == 0x7372 && KeyAt(59) == 0x84d0
    ensures KeyAt(60) == 0x098c && KeyAt(61) == 0x1ad4 && KeyAt(62) == 0x8232 && KeyAt(63) == 0x4589
  {
  }

  lemma Round0()
    ensures Mix(KEYS, 0, B0) == B1
  {
    hide MixWord;
    hide Mask;
    hide KeyWords;
    hide KeyAt;
    Keys0();
    MixOf(0, 1, 0x0000, 0x712c, 0x0000, 0x0000, 0x0000, 0x0000, 0x0000, 0x00, 0x712c);
    MixOf(1, 2, 0x0000, 0x499a, 0xe258, 0x0000, 0x0000, 0x0000, 0x0000, 0x01, 0x099a);
    MixOf(2, 3, 0x0000, 0x687d, 0x2669, 0xe258, 0x0000, 0x2248, 0x0000, 0x04, 0x0ac5);
    MixOf(3, 5, 0x0000, 0xeaa1, 0x562c, 0x2669, 0xe258, 0x0628, 0xa050, 0x12, 0x0119);
  }

  lemma Round1()
    ensures Mix(KEYS, 4, B1) == B2
  {
    hide MixWord;
    hide Mask;
    hide KeyWords;
    hide KeyAt;
    Keys0();
    MixOf(4, 1, 0xe258, 0x918e, 0x2332, 0x562c, 0x2669, 0x0220, 0x0449, 0x00, 0x7a4f);
    MixOf(5, 2, 0x2669, 0x83b2, 0xf49e, 0x2332, 0x562c, 0x2012, 0x0220, 0x03, 0x0c4d);
    MixOf(6, 3, 0x562c, 0x585c, 0x3137, 0xf49e, 0x2332, 0x3016, 0x0200, 0x07, 0x009e);
    MixOf(7, 5, 0x2332, 0x16a4, 0x04f7, 0x3137, 0xf49e, 0x0037, 0xf008, 0x05, 0x0215);
  }

  lemma Round2()
    ensures Mix(KEYS, 8, B2) == B3
  {
    hide MixWord;
    hide Mask;
    hide KeyWords;
    hide KeyAt;
    Keys0();
    MixOf(8, 1, 0xf49e, 0xa63c, 0x42a5, 0x04f7, 0x3137, 0x00a5, 0x3112, 0x01, 0x4c91);
    MixOf(9, 2, 0x3137, 0x6809, 0x9923, 0x42a5, 0x04f7, 0x0021, 0x04d4, 0x02, 0x1e35);
    MixOf(10, 3, 0x04f7, 0x46eb, 0x78d6, 0x9923, 0x42a5, 0x1802, 0x0221, 0x03, 0x0605);
    MixOf(11, 5, 0x42a5, 0x465a, 0x302b, 0x78d6, 0x9923, 0x3002, 0x8900, 0x08, 0x0201);
  }

  lemma Round3()
    ensures Mix(KEYS, 12, B3) == B4
  {
    hide MixWord;
    hide Mask;
    hide KeyWords;
    hide KeyAt;
    Keys0();
    MixOf(12, 1, 0x9923, 0x860c, 0x4028, 0x302b, 0x78d6, 0x0028, 0x38d6, 0x00, 0x582d);
    MixOf(13, 2, 0x78d6, 0xc51b, 0xb05a, 0x4028, 0x302b, 0x0008, 0x0021, 0x00, 0x3e1a);
    MixOf(14, 3, 0x302b, 0x644f, 0xf868, 0xb05a, 0x4028, 0xb048, 0x0000, 0x02, 0x04c2);
    MixOf(15, 5, 0x4028, 0x8878, 0x2612, 0xf868, 0xb05a, 0x2000, 0x9048, 0x0f, 0x00e8);
  }

  lemma Round4()
    ensures Mix(KEYS, 16, B4) == B5
  {
    hide MixWord;
    hide Mask;
    hide KeyWords;
    hide KeyAt;
    Keys1();
    MixOf(16, 1, 0xb05a, 0xfbe5, 0x1d0f, 0x2612, 0xf868, 0x0402, 0xe060, 0x01, 0x10a1);
    MixOf(17, 2, 0xf868, 0x44f0, 0x2143, 0x1d0f, 0x2612, 0x0103, 0x0610, 0x01, 0x046b);
    MixOf(18, 3, 0x2612, 0x7510, 0x11ad, 0x2143, 0x1d0f, 0x0101, 0x0c02, 0x05, 0x0825);
    MixOf(19, 5, 0x1d0f, 0xd23e, 0x412d, 0x11ad, 0x2143, 0x012d, 0x2042, 0x02, 0x00bc);
  }

  lemma Round5()
    ensures Mash(KEYS, B5) == B6
  {
    hide Selected;
    hide KeyWords;
    hide KeyAt;
    Keys0();
    Keys1();
    MashOf(0x2143, 0x1782, 2, 0x687d, 0x89c0);
    MashOf(0x11ad, 0x89c0, 0, 0x712c, 0x82d9);
    MashOf(0x412d, 0x82d9, 25, 0x7cee, 0xbe1b);
    MashOf(0x1782, 0xbe1b, 27, 0xa46f, 0xbbf1);
  }

  lemma Round6()
    ensures Mix(KEYS, 20, B6) == B7
  {
    hide MixWord;
    hide Mask;
    hide KeyWords;
    hide KeyAt;
    Keys1();
    MixOf(20, 1, 0x89c0, 0x6c68, 0xbbf1, 0xbe1b, 0x82d9, 0xba11, 0x0008, 0x01, 0x3041);
    MixOf(21, 2, 0x82d9, 0x262f, 0x6083, 0xbbf1, 0xbe1b, 0x2081, 0x9e18, 0x01, 0x27a1);
    MixOf(22, 3, 0xbe1b, 0x42bf, 0x9e85, 0x6083, 0xbbf1, 0x0081, 0x2170, 0x01, 0x02cb);
    MixOf(23, 5, 0xbbf1, 0x8962, 0x1659, 0x9e85, 0x6083, 0x1601, 0x6082, 0x17, 0x03d6);
  }

  lemma Round7()
    ensures Mix(KEYS, 24, B7) == B8
  {
    hide MixWord;
    hide Mask;
    hide KeyWords;
    hide KeyAt;
    Keys1();
    MixOf(24, 1, 0x6083, 0x0ffe, 0x7ad7, 0x1659, 0x9e85, 0x1251, 0x8400, 0x00, 0x06d2);
    MixOf(25, 2, 0x9e85, 0x7cee, 0x0da4, 0x7ad7, 0x1659, 0x0884, 0x1259, 0x00, 0x3650);
    MixOf(26, 3, 0x1659, 0xbe0c, 0xd940, 0x0da4, 0x7ad7, 0x0900, 0x2297, 0x07, 0x1ffc);
    MixOf(27, 5, 0x7ad7, 0xa46f, 0xffe7, 0xd940, 0x0da4, 0xd940, 0x0000, 0x1f, 0x0086);
  }

  lemma Round8()
    ensures Mix(KEYS, 28, B8) == B9
  {
    hide MixWord;
    hide Mask;
    hide KeyWords;
    hide KeyAt;
    Keys1();
    MixOf(28, 1, 0x0da4, 0x97fa, 0x10df, 0xffe7, 0xd940, 0x10c7, 0xc900, 0x00, 0x7f65);
    MixOf(29, 2, 0xd940, 0x5de2, 0xfeca, 0x10df, 0xffe7, 0x10ca, 0x0125, 0x01, 0x0911);
    MixOf(30, 3, 0xffe7, 0x23e0, 0x2445, 0xfeca, 0x10df, 0x2440, 0x109a, 0x02, 0x18a1);
    MixOf(31, 5, 0x10df, 0x913a, 0xc50a, 0x2445, 0xfeca, 0x0400, 0x3ac0, 0x1c, 0x00d9);
  }

  lemma Round9()
    ensures Mix(KEYS, 32, B9) == B10
  {
    hide MixWord;
    hide Mask;
    hide KeyWords;
    hide KeyAt;
    Keys2();
    MixOf(32, 1, 0xfeca, 0xf320, 0x1b3c, 0xc50a, 0x2445, 0x0108, 0x2441, 0x00, 0x1733);
    MixOf(33, 2, 0x2445, 0xfa4a, 0x2e66, 0x1b3c, 0xc50a, 0x0a24, 0xc108, 0x03, 0x29bb);
    MixOf(34, 3, 0xc50a, 0x54bd, 0xa6ef, 0x2e66, 0x1b3c, 0x2666, 0x1910, 0x02, 0x193d);
    MixOf(35, 5, 0x1b3c, 0xc43a, 0xc9ea, 0xa6ef, 0x2e66, 0x80ea, 0x2604, 0x10, 0x0664);
  }

  lemma Round10()
    ensures Mix(KEYS, 36, B10) == B11
  {
    hide MixWord;
    hide Mask;
    hide KeyWords;
    hide KeyAt;
    Keys2();
    MixOf(36, 1, 0x2e66, 0x5564, 0xcc90, 0xc9ea, 0xa6ef, 0xc880, 0x226f, 0x00, 0x6eb9);
    MixOf(37, 2, 0xa6ef, 0x805c, 0xdd72, 0xcc90, 0xc9ea, 0xcc10, 0x0088, 0x03, 0x33e3);
    MixOf(38, 3, 0xc9ea, 0x8221, 0xcf8f, 0xdd72, 0xcc90, 0xcd02, 0x0010, 0x00, 0x191d);
    MixOf(39, 5, 0xcc90, 0x238e, 0xc8e8, 0xcf8f, 0xdd72, 0xc888, 0x1512, 0x19, 0x05b8);
  }

  lemma Round11()
    ensures Mix(KEYS, 40, B11) == B12
  {
    hide MixWord;
    hide Mask;
    hide KeyWords;
    hide KeyAt;
    Keys2();
    MixOf(40, 1, 0xdd72, 0x0989, 0xb719, 0xc8e8, 0xcf8f, 0x8008, 0x4886, 0x01, 0x2f89);
    MixOf(41, 2, 0xcf8f, 0xf6bb, 0x5f13, 0xb719, 0xc8e8, 0x1711, 0x80e8, 0x01, 0x1e43);
    MixOf(42, 3, 0xc8e8, 0x647f, 0x790d, 0x5f13, 0xb719, 0x5901, 0x8610, 0x00, 0x0c78);
    MixOf(43, 5, 0xb719, 0x767a, 0x63c0, 0x790d, 0x5f13, 0x6100, 0x1c13, 0x15, 0x02a6);
  }

  lemma Round12()
    ensures Mash(KEYS, B12) == B13
  {
    hide Selected;
    hide KeyWords;
    hide KeyAt;
    Keys0();
    Keys1();
    Keys2();
    MashOf(0x5f13, 0x54d5, 21, 0x262f, 0x8542);
    MashOf(0x790d, 0x8542, 2, 0x687d, 0xe18a);
    MashOf(0x63c0, 0xe18a, 10, 0x46eb, 0xaaab);
    MashOf(0x54d5, 0xaaab, 43, 0x767a, 0xcb4f);
  }

  lemma Round13()
    ensures Mix(KEYS, 44, B13) == B14
  {
    hide MixWord;
    hide Mask;
    hide KeyWords;
    hide KeyAt;
    Keys2();
    MixOf(44, 1, 0x8542, 0x4f67, 0xcb4f, 0xaaab, 0xe18a, 0x8a0b, 0x2080, 0x00, 0x7f34);
    MixOf(45, 2, 0xe18a, 0xbce1, 0xfe68, 0xcb4f, 0xaaab, 0xca48, 0x0083, 0x01, 0x2936);
    MixOf(46, 3, 0xaaab, 0xb8a5, 0xa4d9, 0xfe68, 0xcb4f, 0xa448, 0x4b06, 0x02, 0x129e);
    MixOf(47, 5, 0xcb4f, 0x34b1, 0x94f2, 0xa4d9, 0xfe68, 0x84d0, 0x6a08, 0x1d, 0x06d8);
  }

  lemma Round14()
    ensures Mix(KEYS, 48, B14) == B15
  {
    hide MixWord;
    hide Mask;
    hide KeyWords;
    hide KeyAt;
    Keys3();
    MixOf(48, 1, 0xfe68, 0xd73d, 0xdb1d, 0x94f2, 0xa4d9, 0x9010, 0x24c0, 0x01, 0x0a75);
    MixOf(49, 2, 0xa4d9, 0x1e97, 0x14eb, 0xdb1d, 0x94f2, 0x1009, 0x8010, 0x01, 0x1389);
    MixOf(50, 3, 0x94f2, 0x990c, 0x4e25, 0x14eb, 0xdb1d, 0x0421, 0x9118, 0x06, 0x0337);
    MixOf(51, 5, 0xdb1d, 0xc160, 0x19be, 0x4e25, 0x14eb, 0x0824, 0x0441, 0x15, 0x00e2);
  }

  lemma Round15()
    ensures Mix(KEYS, 52, B15) == B16
  {
    hide MixWord;
    hide Mask;
    hide KeyWords;
    hide KeyAt;
    Keys3();
    MixOf(52, 1, 0x14eb, 0x8372, 0x1c55, 0x19be, 0x4e25, 0x1814, 0x4220, 0x01, 0x7291);
    MixOf(53, 2, 0x4e25, 0x68c7, 0xe523, 0x1c55, 0x19be, 0x0401, 0x189c, 0x03, 0x1389);
    MixOf(54, 3, 0x19be, 0x4dc9, 0x4e27, 0xe523, 0x1c55, 0x4423, 0x1050, 0x05, 0x1bfa);
    MixOf(55, 5, 0x1c55, 0xd904, 0xdfd5, 0x4e27, 0xe523, 0x4e05, 0x2022, 0x0c, 0x0380);
  }

  lemma Round16()
    ensures Mix(KEYS, 56, B16) == B17
  {
    hide MixWord;
    hide Mask;
    hide KeyWords;
    hide KeyAt;
    Keys3();
    MixOf(56, 1, 0xe523, 0x8edf, 0x700c, 0xdfd5, 0x4e27, 0x5004, 0x0e23, 0x01, 0x5229);
    MixOf(57, 2, 0x4e27, 0xa0e8, 0xa453, 0x700c, 0xdfd5, 0x2000, 0x5b84, 0x01, 0x2a93);
    MixOf(58, 3, 0xdfd5, 0x7372, 0xaa4d, 0xa453, 0x700c, 0xa041, 0x5000, 0x02, 0x0388);
    MixOf(59, 5, 0x700c, 0x84d0, 0x1c42, 0xaa4d, 0xa453, 0x0840, 0xa011, 0x13, 0x052d);
  }

  lemma Round17()
    ensures Mix(KEYS, 60, B17) == B18
  {
    hide MixWord;
    hide Mask;
    hide KeyWords;
    hide KeyAt;
    Keys3();
    MixOf(60, 1, 0xa453, 0x098c, 0xa5b3, 0x1c42, 0xaa4d, 0x0402, 0x0a4c, 0x01, 0x3c2d);
    MixOf(61, 2, 0xaa4d, 0x1ad4, 0x785b, 0xa5b3, 0x1c42, 0x2013, 0x0400, 0x03, 0x2934);
    MixOf(62, 3, 0x1c42, 0x8232, 0xa4d3, 0x785b, 0xa5b3, 0x2053, 0x0120, 0x05, 0x1fe7);
    MixOf(63, 5, 0xa5b3, 0x4589, 0xff3d, 0xa4d3, 0x785b, 0xa411, 0x0042, 0x11, 0x078f);
  }

  lemma FirstRounds()
    ensures Mixes(KEYS, 0, 5, B0) == B5
  {
    hide Mix;
    hide KeyWords;
    Round0();
    assert Mixes(KEYS, 0, 1, B0) == B1;
    Round1();
    assert Mixes(KEYS, 0, 2, B0) == B2;
    Round2();
    assert Mixes(KEYS, 0, 3, B0) == B3;
    Round3();
    assert Mixes(KEYS, 0, 4, B0) == B4;
    Round4();
    assert Mixes(KEYS, 0, 5, B0) == B5;
  }

  lemma MiddleRounds()
    ensures Mixes(KEYS, 20, 6, B6) == B12
  {
    hide Mix;
    hide KeyWords;
    Round6();
    assert Mixes(KEYS, 20, 1, B6) == B7;
    Round7();
    assert Mixes(KEYS, 20, 2, B6) == B8;
    Round8();
    assert Mixes(KEYS, 20, 3, B6) == B9;
    Round9();
    assert Mixes(KEYS, 20, 4, B6) == B10;
    Round10();
    assert Mixes(KEYS, 20, 5, B6) == B11;
    Round11();
    assert Mixes(KEYS, 20, 6, B6) == B12;
  }

  lemma LastRounds()
    ensures Mixes(KEYS, 44, 5, B13) == B18
  {
    hide Mix;
    hide KeyWords;
    Round13();
    assert Mixes(KEYS, 44, 1, B13) == B14;
    Round14();
    assert Mixes(KEYS, 44, 2, B13) == B15;
    Round15();
    assert Mixes(KEYS, 44, 3, B13) == B16;
    Round16();
    assert Mixes(KEYS, 44, 4, B13) == B17;
    Round17();
    assert Mixes(KEYS, 44, 5, B13) == B18;
  }

  lemma FirstBlock(zeros: seq<Byte>)
    requires |zeros| == 8 && forall i :: 0 <= i < 8 ==> zeros[i] == 0
    ensures LoadBlock(zeros) == B0 && BlockBytes(B0) == zeros
  {
    hide LoadBlock;
    assert BlockBytes(B0) == zeros;
    BlocksAreBytes(B0, zeros);
  }

  lemma LastBlock()
    ensures BlockBytes(B18) == [0x5b, 0x78, 0xd3, 0xa4, 0x3d, 0xff, 0xf1, 0xf1]
  {
  }

  lemma Encrypted()
    ensures EncryptBlock(KEYS, B0) == B18
  {
    hide Mixes;
    hide Mash;
    hide KeyWords;
    FirstRounds();
    Round5();
    MiddleRounds();
    Round12();
    LastRounds();
  }

  /**
    Section 5: the key 88bca90e90875a7f0f79c384627bafb216f80a6f85920584c42fceb0be255daf1e with 129 effective bits
    encrypts eight zero bytes as 5b78d3a43dfff1f1.
  */
  lemma Vector(zeros: seq<Byte>)
    requires |zeros| == 8 && forall i :: 0 <= i < 8 ==> zeros[i] == 0
    ensures
      BlockBytes(EncryptBlock(KeyTable(PI_TABLE, KEY, 129), LoadBlock(zeros)))
      == [0x5b, 0x78, 0xd3, 0xa4, 0x3d, 0xff, 0xf1, 0xf1]
  {
    hide *;
    KeysOfVector();
    FirstBlock(zeros);
    LastBlock();
    Encrypted();
  }

  lemma VectorDecrypted()
    ensures
      var cipher := [0x5b, 0x78, 0xd3, 0xa4, 0x3d, 0xff, 0xf1, 0xf1];
      BlockBytes(DecryptBlock(KeyTable(PI_TABLE, KEY, 129), LoadBlock(cipher))) == [0, 0, 0, 0, 0, 0, 0, 0]
  {
    hide *;
    var zeros := [0, 0, 0, 0, 0, 0, 0, 0];
    Vector(zeros);
    KeysOfVector();
    BytesRoundTrip(KEYS, zeros);
  }
}
