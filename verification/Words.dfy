/** Bitwise operators on the 32 bits of Go's int32, and the branch-free tests and moves built from them. */
module Words {
  import opened Bits

  const WORDS := 0x1_0000_0000 // 2^32

  predicate IsInt32(x: int) {
    -0x8000_0000 <= x < 0x8000_0000
  }

  /** The bits of an int32, as a number; also the conversion to uint32. */
  function Word(x: int): (w: nat)
    ensures w < WORDS
  {
    x % WORDS
  }

  /** The int32 with these bits. */
  function Signed(w: nat): int {
    if w < 0x8000_0000 then w else w - WORDS
  }

  lemma SignedWord(x: int)
    requires IsInt32(x)
    ensures Signed(Word(x)) == x
  {
    ModUnique(x, WORDS, if x < 0 then -1 else 0, if x < 0 then x + WORDS else x);
  }

  /** The last binary digit of x ^ y. */
  function Differ(x: int, y: int): nat {
    if x % 2 != y % 2 then 1 else 0
  }

  /** Bitwise `x ^ y` of two non-negative words. */
  function BitXor(x: nat, y: nat): (r: nat)
    decreases x + y
  {
    if x == 0 then y
    else if y == 0 then x
    else Differ(x, y) + 2 * BitXor(x / 2, y / 2)
  }

  lemma {:induction false} XorBound(x: nat, y: nat, k: nat)
    requires x < Pow2(k) && y < Pow2(k)
    ensures BitXor(x, y) < Pow2(k)
  {
    if k > 0 {
      XorBound(x / 2, y / 2, k - 1);
    }
  }

  lemma {:induction false} AndBound(x: nat, y: nat)
    ensures BitAnd(x, y) <= x
    decreases x
  {
    if x > 0 {
      AndBound(x / 2, y / 2);
    }
  }

  lemma {:induction false} XorIsZero(x: nat, y: nat)
    ensures BitXor(x, y) == 0 <==> x == y
    decreases x + y
  {
    if x > 0 || y > 0 {
      XorIsZero(x / 2, y / 2);
    }
  }

  lemma {:induction false} XorTwice(x: nat, y: nat)
    ensures BitXor(x, BitXor(x, y)) == y
    decreases x + y
  {
    if x > 0 || y > 0 {
      XorTwice(x / 2, y / 2);
      XorDigits(x, y);
      XorDigits(x, BitXor(x, y));
      hide BitXor;
    }
  }

  /** The last digit of an exclusive-or, and the others. */
  lemma XorDigits(x: nat, y: nat)
    ensures BitXor(x, y) == Differ(x, y) + 2 * BitXor(x / 2, y / 2)
    ensures BitXor(x, y) % 2 == Differ(x, y) && BitXor(x, y) / 2 == BitXor(x / 2, y / 2)
  {
    hide BitXor;
    var d, h := Differ(x, y), BitXor(x / 2, y / 2);
    XorStep(x, y, x / 2, y / 2);
    ModUnique(BitXor(x, y), 2, h, d);
  }

  lemma XorStep(x: nat, y: nat, x': nat, y': nat)
    requires x' == x / 2 && y' == y / 2
    ensures BitXor(x, y) == Differ(x, y) + 2 * BitXor(x', y')
  {
  }

  lemma {:induction false} XorNothing(x: nat)
    ensures BitXor(x, 0) == x
  {
    if x > 0 {
      XorNothing(x / 2);
    }
  }

  lemma {:induction false} XorCommutes(x: nat, y: nat)
    ensures BitXor(x, y) == BitXor(y, x)
    decreases x + y
  {
    if x > 0 || y > 0 {
      XorCommutes(x / 2, y / 2);
    }
  }

  /** Exclusive-or of words with no overlapping bits is adding them. */
  lemma {:induction false} XorIsSum(lo: nat, hi: nat, k: nat)
    requires lo < Pow2(k)
    ensures BitXor(lo, hi * Pow2(k)) == lo + hi * Pow2(k)
    decreases k
  {
    hide BitXor;
    if k > 0 {
      var h := hi * Pow2(k - 1);
      assert hi * Pow2(k) == 2 * h;
      XorIsSum(lo / 2, hi, k - 1);
      XorDigits(lo, 2 * h);
    } else {
      XorNothing(hi);
      XorCommutes(0, hi);
    }
  }

  lemma {:induction false} AndCommutes(x: nat, y: nat)
    ensures BitAnd(x, y) == BitAnd(y, x)
    decreases x + y
  {
    if x > 0 && y > 0 {
      AndCommutes(x / 2, y / 2);
    }
  }

  lemma ThirtyTwoBits()
    ensures Pow2(31) == 0x8000_0000 && Pow2(32) == WORDS
  {
    Pow2Add(8, 24);
    Pow2Add(7, 24);
    PowersOfTwo();
  }

  /** `x & y` and `x ^ y` of two int32 values. */
  function And32(x: int, y: int): int {
    Signed(BitAnd(Word(x), Word(y)))
  }

  function Xor32(x: int, y: int): int {
    Signed(BitXor(Word(x), Word(y)))
  }

  /** 1 if b and c, which are not negative, are the same, and 0 otherwise. */
  method Equal(b: int, c: int) returns (r: int)
    requires 0 <= b < 0x8000_0000 && 0 <= c < 0x8000_0000
    ensures r == if b == c then 1 else 0
  {
    hide BitXor;
    hide Pow2;
    ThirtyTwoBits();
    XorBound(b, c, 31);
    XorIsZero(b, c);
    var x: int := Word(Xor32(b, c));
    x := Word(x - 1);
    r := x / 0x8000_0000;
  }

  /** The sign bit of an int32, by an arithmetic shift. */
  method Negative(b: int) returns (r: int)
    requires IsInt32(b)
    ensures r == if b < 0 then 1 else 0
  {
    hide BitAnd;
    hide Pow2;
    PowersOfTwo();
    MaskIsMod(Word(b / 0x8000_0000), 1);
    r := And32(b / 0x8000_0000, 1);
  }

  lemma AllOnes(x: int)
    requires IsInt32(x)
    ensures And32(-1, x) == x && And32(0, x) == 0
  {
    ThirtyTwoBits();
    var w := Word(x);
    AndCommutes(w, WORDS - 1);
    MaskIsMod(w, 32);
    ModUnique(w, WORDS, 0, w);
    hide Pow2;
    hide BitAnd;
    SignedWord(x);
    ModUnique(-1, WORDS, -1, WORDS - 1);
  }

  /** The absolute value of a number whose sign bit is given. */
  method Absolute(b: int, bNegative: int) returns (r: int)
    requires -0x4000_0000 <= b < 0x4000_0000 && bNegative == if b < 0 then 1 else 0
    ensures r == Abs(b)
  {
    AllOnes(b);
    hide And32;
    r := Int32(b - Int32(And32(-bNegative, b) * 2));
  }

  /** One limb of a conditional move: g if b is 1, and f if b is 0. */
  method Moved(f: int, g: int, b: int) returns (r: int)
    requires IsInt32(f) && IsInt32(g) && (b == 0 || b == 1)
    ensures r == if b == 1 then g else f
  {
    hide BitXor;
    hide And32;
    hide Pow2;
    XorFits(f, g);
    AllOnes(Xor32(f, g));
    XorBack(f, g);
    r := Xor32(f, And32(-b, Xor32(f, g)));
  }

  lemma XorFits(f: int, g: int)
    ensures IsInt32(Xor32(f, g))
  {
    ThirtyTwoBits();
    XorBound(Word(f), Word(g), 32);
    hide BitXor;
    hide Pow2;
  }

  lemma XorBack(f: int, g: int)
    requires IsInt32(f) && IsInt32(g)
    ensures Xor32(f, Xor32(f, g)) == g && Xor32(f, 0) == f
  {
    hide BitXor;
    hide Pow2;
    ThirtyTwoBits();
    var x := BitXor(Word(f), Word(g));
    XorBound(Word(f), Word(g), 32);
    WordSigned(x);
    XorTwice(Word(f), Word(g));
    XorNothing(Word(f));
    SignedWord(f);
    SignedWord(g);
  }

  lemma WordSigned(w: nat)
    requires w < WORDS
    ensures Word(Signed(w)) == w
  {
    ModUnique(Signed(w), WORDS, if w < 0x8000_0000 then 0 else -1, w);
  }
}
