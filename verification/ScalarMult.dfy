/**
  The two scalar multiplications, over any abelian group. Point additions and doublings are the
  operations of the group; the tables bi and base of the source are parameters.
*/
module ScalarMult {
  import opened Bits
  import opened Groups
  import opened Recoding
  import Words

  /** The value of the digits that slide makes of n. */
  function SlideValue(n: nat): int {
    n - Lost(!Fits(n, 256), 256)
  }

  /** Entry j is (2 j + 1) x. */
  ghost predicate OddMultiples<T(!new)>(g: Group<T>, table: seq<T>, x: T) {
    |table| == 8 && forall j :: 0 <= j < 8 ==> table[j] == Times(g, 2 * j + 1, x)
  }

  /** The table A, 3A, 5A, ..., 15A. */
  method OddTable<T(!new)>(g: Group<T>, A: T) returns (Ai: array<T>)
    requires Abelian(g)
    ensures fresh(Ai) && OddMultiples(g, Ai[..], A)
  {
    hide Abelian;
    hide Times;
    Ai := new T[8](_ => g.zero);
    Ai[0] := A;
    var A2 := g.add(A, A);
    One(g, A);
    TimesAdd(g, 1, 1, A);
    var i := 0;
    while i < 7
      invariant 0 <= i <= 7
      invariant forall j :: 0 <= j <= i ==> Ai[j] == Times(g, 2 * j + 1, A)
    {
      TimesAdd(g, 2, 2 * i + 1, A);
      Ai[i + 1] := g.add(A2, Ai[i]);
      i := i + 1;
    }
  }

  lemma One<T(!new)>(g: Group<T>, x: T)
    requires Abelian(g)
    ensures Times(g, 1, x) == x
  {
    assert Times(g, 0, x) == g.zero;
    assert g.add(g.zero, x) == g.add(x, g.zero);
  }

  lemma Entry<T(!new)>(g: Group<T>, table: seq<T>, d: int, x: T)
    requires OddMultiples(g, table, x) && IsDigit(d) && d > 0
    ensures 0 <= d / 2 < 8 && table[d / 2] == Times(g, d, x)
  {
    hide Times;
    var j := d / 2;
    assert d == 2 * j + 1;
  }

  lemma NegatedEntry<T(!new)>(g: Group<T>, table: seq<T>, d: int, x: T)
    requires Abelian(g) && OddMultiples(g, table, x) && IsDigit(d) && d < 0
    ensures 0 <= -d / 2 < 8 && g.neg(table[-d / 2]) == Times(g, d, x)
  {
    hide Abelian;
    hide Times;
    var m := -d;
    assert m % 2 == 1;
    Entry(g, table, m, x);
    TimesNeg(g, m, x);
  }

  /** Adds the multiple of x that a digit of slide stands for. */
  method AddDigit<T(!new)>(g: Group<T>, t: T, table: seq<T>, d: int, ghost x: T) returns (t': T)
    requires Abelian(g) && OddMultiples(g, table, x)
    requires IsDigit(d)
    ensures t' == g.add(t, Times(g, d, x))
  {
    hide Abelian;
    hide Times;
    hide IsDigit;
    TimesZero(g, x);
    Neutral(g, t);
    t' := t;
    if d > 0 {
      Entry(g, table, d, x);
      t' := g.add(t, table[d / 2]);
    } else if d < 0 {
      NegatedEntry(g, table, d, x);
      t' := g.add(t, g.neg(table[-d / 2]));
    }
  }

  function Twice<T>(g: Group<T>, x: T): T {
    g.add(x, x)
  }

  /** Doubling u A + v B and adding a digit of each. */
  lemma Horner<T(!new)>(g: Group<T>, u: int, d: int, x: T, v: int, e: int, y: T)
    requires Abelian(g)
    ensures g.add(g.add(Twice(g, g.add(Times(g, u, x), Times(g, v, y))), Times(g, d, x)), Times(g, e, y))
         == g.add(Times(g, d + 2 * u, x), Times(g, e + 2 * v, y))
  {
    hide Abelian;
    hide Times;
    var p, q := Times(g, u, x), Times(g, v, y);
    TimesAdd(g, u, u, x);
    TimesAdd(g, v, v, y);
    TimesAdd(g, 2 * u, d, x);
    TimesAdd(g, 2 * v, e, y);
    Regroup(g, p, q, Times(g, d, x), Times(g, e, y));
  }

  lemma Regroup<T(!new)>(g: Group<T>, p: T, q: T, a: T, b: T)
    requires Abelian(g)
    ensures g.add(g.add(g.add(g.add(p, q), g.add(p, q)), a), b)
         == g.add(g.add(g.add(p, p), a), g.add(g.add(q, q), b))
  {
    Swap(g, p, q, p, q);
    Swap(g, g.add(p, p), g.add(q, q), a, b);
    assert g.add(g.add(g.add(g.add(p, p), g.add(q, q)), a), b)
        == g.add(g.add(g.add(p, p), g.add(q, q)), g.add(a, b));
  }

  lemma ZeroPlusZero<T(!new)>(g: Group<T>, x: T, y: T)
    requires Abelian(g)
    ensures g.zero == g.add(Times(g, 0, x), Times(g, 0, y))
  {
  }

  lemma NextDigit(s: seq<int>, i: nat)
    requires i < |s|
    ensures Radix(s, 1, i) == s[i] + 2 * Radix(s, 1, i + 1)
  {
    assert Pow2(1) == 2;
  }

  /** The two loops over the digits: skips the leading zeros, then doubles and adds. */
  method Evaluate<T(!new)>(g: Group<T>, aSlide: seq<int>, Ai: seq<T>, bSlide: seq<int>, bi: seq<T>, ghost A: T,
      ghost B: T) returns (r: T)
    requires Abelian(g) && |aSlide| == |bSlide| == 256 && SlideDigits(aSlide, 256) && SlideDigits(bSlide, 256)
    requires OddMultiples(g, Ai, A) && OddMultiples(g, bi, B)
    ensures r == g.add(Times(g, Radix(aSlide, 1, 0), A), Times(g, Radix(bSlide, 1, 0), B))
  {
    hide Abelian;
    hide Times;
    hide Pow2;
    hide Radix;
    r := g.zero;
    var i := 255;
    while i >= 0
      invariant -1 <= i <= 255
      invariant ZerosBetween(aSlide, i + 1, 256) && ZerosBetween(bSlide, i + 1, 256)
    {
      if aSlide[i] != 0 || bSlide[i] != 0 {
        break;
      }
      i := i - 1;
    }
    RadixZeros(aSlide, 1, i + 1);
    RadixZeros(bSlide, 1, i + 1);
    ZeroPlusZero(g, A, B);
    while i >= 0
      invariant -1 <= i <= 255
      invariant r == g.add(Times(g, Radix(aSlide, 1, i + 1), A), Times(g, Radix(bSlide, 1, i + 1), B))
    {
      NextDigit(aSlide, i);
      NextDigit(bSlide, i);
      Horner(g, Radix(aSlide, 1, i + 1), aSlide[i], A, Radix(bSlide, 1, i + 1), bSlide[i], B);
      var t := g.add(r, r);
      t := AddDigit(g, t, Ai, aSlide[i], A);
      t := AddDigit(g, t, bi, bSlide[i], B);
      r := t;
      i := i - 1;
    }
  }

  lemma ValueOfDigits(n: nat)
    ensures SlideValue(n) == n - Lost(!Fits(n, 256), 256) && (Fits(n, 256) ==> SlideValue(n) == n)
  {
    hide Fits;
    hide Pow2;
  }

  /** a A + b B, for scalars whose sliding windows do not run past the top. */
  method GeDoubleScalarMultVartime<T(!new)>(g: Group<T>, a: array<Byte>, A: T, b: array<Byte>, bi: seq<T>, ghost B: T)
    returns (r: T)
    requires Abelian(g) && a.Length == b.Length == 32 && OddMultiples(g, bi, B)
    ensures r == g.add(Times(g, SlideValue(LittleEndian(a[..])), A), Times(g, SlideValue(LittleEndian(b[..])), B))
    ensures r == g.add(Times(g, LittleEndian(a[..]), A), Times(g, LittleEndian(b[..]), B))
       <==> g.add(Missing(g, LittleEndian(a[..]), A), Missing(g, LittleEndian(b[..]), B)) == g.zero
    ensures a[31] <= 127 && b[31] <= 127 ==>
      r == g.add(Times(g, LittleEndian(a[..]), A), Times(g, LittleEndian(b[..]), B))
  {
    hide Missing;
    hide Abelian;
    hide Times;
    hide Pow2;
    hide Radix;
    hide Fits;
    hide SlideDigits;
    hide OddMultiples;
    hide LittleEndian;
    hide SlideValue;
    ghost var m, n := LittleEndian(a[..]), LittleEndian(b[..]);
    ValueOfDigits(m);
    ValueOfDigits(n);
    ExactlyWhen(g, m, n, A, B);
    var aSlide, bSlide := new int[256], new int[256];
    Slide(aSlide, a);
    Slide(bSlide, b);
    var Ai := OddTable(g, A);
    r := Evaluate(g, aSlide[..], Ai[..], bSlide[..], bi, A, B);
    if a[31] <= 127 && b[31] <= 127 {
      TopByteFits(a[..]);
      TopByteFits(b[..]);
    }
  }

  /** What the recoded scalar n is short of, times x: nothing if n fits, and 2^256 x otherwise. */
  ghost function Missing<T>(g: Group<T>, n: nat, x: T): T {
    if Fits(n, 256) then g.zero else Times(g, Pow2(256), x)
  }

  lemma WithMissing<T(!new)>(g: Group<T>, n: nat, x: T)
    requires Abelian(g)
    ensures Times(g, n, x) == g.add(Times(g, SlideValue(n), x), Missing(g, n, x))
  {
    hide Abelian;
    hide Times;
    hide Pow2;
    if Fits(n, 256) {
      Neutral(g, Times(g, n, x));
    } else {
      var m := Pow2(256);
      TimesAdd(g, n - m, m, x);
      assert (n - m) + m == n;
    }
  }

  /** The answer for m and n is right exactly when what they are short of cancels, in particular if both fit. */
  lemma ExactlyWhen<T(!new)>(g: Group<T>, m: nat, n: nat, A: T, B: T)
    requires Abelian(g)
    ensures g.add(Times(g, SlideValue(m), A), Times(g, SlideValue(n), B)) == g.add(Times(g, m, A), Times(g, n, B))
       <==> g.add(Missing(g, m, A), Missing(g, n, B)) == g.zero
  {
    hide Abelian;
    hide Times;
    hide Missing;
    hide SlideValue;
    var u, v := Times(g, SlideValue(m), A), Times(g, SlideValue(n), B);
    WithMissing(g, m, A);
    WithMissing(g, n, B);
    Swap(g, u, Missing(g, m, A), v, Missing(g, n, B));
    NeutralAlone(g, g.add(u, v), g.add(Missing(g, m, A), Missing(g, n, B)));
  }

  lemma NeutralAlone<T(!new)>(g: Group<T>, u: T, v: T)
    requires Abelian(g)
    ensures g.add(u, v) == u <==> v == g.zero
  {
    Commutes(g, u, v);
    Commutes(g, u, g.zero);
    Neutral(g, u);
    hide Abelian;
    if g.add(u, v) == u {
      Cancel(g, v, g.zero, u);
    }
  }

  lemma Commutes<T(!new)>(g: Group<T>, x: T, y: T)
    requires Abelian(g)
    ensures g.add(x, y) == g.add(y, x)
  {
  }

  lemma Neutral<T(!new)>(g: Group<T>, x: T)
    requires Abelian(g)
    ensures g.add(x, g.zero) == x
  {
  }

  lemma TimesZero<T(!new)>(g: Group<T>, x: T)
    ensures Times(g, 0, x) == g.zero
  {
  }

  // ---------------------------------------------------------------------------------------
  // Multiples of the base point
  // ---------------------------------------------------------------------------------------

  /** PreComputedGroupElementCMove, on values. */
  function CMove<T>(t: T, u: T, b: int): T {
    if b == 1 then u else t
  }

  /** Entry i of row pos is (i + 1) 256^pos x. */
  ghost predicate BaseTable<T(!new)>(g: Group<T>, base: seq<seq<T>>, x: T) {
    |base| == 32 && forall pos :: 0 <= pos < 32 ==> RowOf(g, base[pos], Times(g, Pow2(8 * pos), x))
  }

  ghost predicate RowOf<T(!new)>(g: Group<T>, row: seq<T>, x: T) {
    |row| == 8 && forall i :: 0 <= i < 8 ==> row[i] == Times(g, i + 1, x)
  }

  /** The multiple d of the point that a row of the table belongs to. */
  method SelectPoint<T(!new)>(g: Group<T>, row: seq<T>, d: int, ghost x: T) returns (t: T)
    requires Abelian(g) && RowOf(g, row, x) && -8 <= d <= 8
    ensures t == Times(g, d, x)
  {
    TimesZero(g, x);
    hide Abelian;
    hide Times;
    var bNegative := Words.Negative(d);
    var bAbs := Words.Absolute(d, bNegative);
    t := g.zero;
    var i := 0;
    while i < 8
      invariant 0 <= i <= 8
      invariant t == if bAbs <= i then Times(g, bAbs, x) else g.zero
    {
      var b := Words.Equal(bAbs, i + 1);
      t := CMove(t, row[i], b);
      i := i + 1;
    }
    var minusT := g.neg(t);
    t := CMove(t, minusT, bNegative);
    if d < 0 {
      TimesNeg(g, -d, x);
    }
  }

  /** The sum of the digits of one parity, from digit first on, each weighted by 256^(position / 2). */
  function Half(e: seq<int>, first: nat, n: nat): int
    requires 2 * n + first <= |e| + 1
  {
    if n == 0 then 0 else Half(e, first, n - 1) + e[2 * (n - 1) + first] * Pow2(8 * (n - 1))
  }

  /** Adds up the digits of one parity. */
  method AddHalf<T(!new)>(g: Group<T>, h0: T, e: seq<int>, first: nat, base: seq<seq<T>>, ghost m: int, ghost B: T)
    returns (h: T)
    requires Abelian(g) && BaseTable(g, base, B) && |e| == 64 && first <= 1 && Within(e, -8, 8, 0, 64)
    requires h0 == Times(g, m, B)
    ensures h == Times(g, m + Half(e, first, 32), B)
  {
    hide Abelian;
    hide Times;
    hide Pow2;
    h := h0;
    var i := first;
    while i < 64
      invariant first <= i <= 64 + first && i % 2 == first
      invariant h == Times(g, m + Half(e, first, (i - first) / 2), B)
    {
      ghost var n := (i - first) / 2;
      assert i / 2 == n;
      var t := SelectPoint(g, base[i / 2], e[i], Times(g, Pow2(8 * n), B));
      MultipleOfMultiple(g, e[i], Pow2(8 * n), B);
      TimesAdd(g, m + Half(e, first, n), e[i] * Pow2(8 * n), B);
      h := g.add(h, t);
      i := i + 2;
    }
  }

  lemma MultipleOfMultiple<T(!new)>(g: Group<T>, d: int, n: int, x: T)
    requires Abelian(g)
    ensures Times(g, d, Times(g, n, x)) == Times(g, d * n, x)
  {
    if d >= 0 {
      TimesTimes(g, d, n, x);
    } else {
      TimesTimes(g, -d, n, x);
      TimesNeg(g, -d, Times(g, n, x));
      TimesNeg(g, -d * n, x);
      assert -(-d * n) == d * n;
    }
  }

  /** The two halves make up the value: the odd digits weigh 16 times as much. */
  lemma {:induction false} HalvesMakeValue(e: seq<int>, n: nat)
    requires |e| == 64 && n <= 32
    ensures Radix(e, 4, 0) == Half(e, 0, n) + 16 * Half(e, 1, n) + Pow2(8 * n) * Radix(e, 4, 2 * n)
  {
    if n > 0 {
      HalvesMakeValue(e, n - 1);
      var k := 2 * (n - 1);
      PowersOfTwo();
      assert Radix(e, 4, k) == e[k] + 16 * (e[k + 1] + 16 * Radix(e, 4, k + 2)) by {
        assert Radix(e, 4, k + 1) == e[k + 1] + 16 * Radix(e, 4, k + 2);
      }
      Pow2Add(8 * (n - 1), 8);
      Spread(Pow2(8 * (n - 1)), e[k], e[k + 1], Radix(e, 4, k + 2));
    }
  }

  lemma HalvesSum(e: seq<int>)
    requires |e| == 64
    ensures Radix(e, 4, 0) == Half(e, 0, 32) + 16 * Half(e, 1, 32)
  {
    hide Pow2;
    HalvesMakeValue(e, 32);
  }

  lemma Spread(p: int, a: int, b: int, r: int)
    ensures p * (a + 16 * (b + 16 * r)) == a * p + 16 * (b * p) + (p * 256) * r
  {
    assert p * (a + 16 * (b + 16 * r)) == p * a + p * (16 * b) + p * (256 * r);
    Assoc(p, 256, r);
  }

  /** a B: the odd digits, four doublings, and the even digits. */
  method GeScalarMultBase<T(!new)>(g: Group<T>, a: array<Byte>, base: seq<seq<T>>, ghost B: T) returns (h: T)
    requires Abelian(g) && BaseTable(g, base, B) && a.Length == 32 && a[31] <= 127
    ensures h == Times(g, LittleEndian(a[..]), B)
  {
    hide Abelian;
    hide Times;
    hide Pow2;
    hide Radix;
    hide Half;
    var e := new int[64];
    TimesZero(g, B);
    RadixSixteen(e, a);
    h := AddHalf(g, g.zero, e[..], 1, base, 0, B);
    ghost var odd := Half(e[..], 1, 32);
    TimesAdd(g, odd, odd, B);
    h := g.add(h, h);
    TimesAdd(g, 2 * odd, 2 * odd, B);
    h := g.add(h, h);
    TimesAdd(g, 4 * odd, 4 * odd, B);
    h := g.add(h, h);
    TimesAdd(g, 8 * odd, 8 * odd, B);
    h := g.add(h, h);
    h := AddHalf(g, h, e[..], 0, base, 16 * odd, B);
    HalvesSum(e[..]);
  }
}
