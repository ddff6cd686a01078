/** Integers as bytes, most significant byte first. */
module BigEndians {
  import opened Bits

  const WORD := 0x1_0000_0000_0000_0000 // 2^64

  /** n in the least number of bytes, and one byte for zero. */
  function IntBytes(n: nat): (b: seq<Byte>)
    ensures |b| > 0
  {
    if n < 256 then [n] else IntBytes(n / 256) + [n % 256]
  }

  function BigEndian(b: seq<Byte>): nat {
    if b == [] then 0 else 256 * BigEndian(b[..|b| - 1]) + b[|b| - 1]
  }

  lemma NoBytes()
    ensures BigEndian([]) == 0
  {
  }

  lemma {:induction false} IntBytesValue(n: nat)
    ensures BigEndian(IntBytes(n)) == n && (n > 0 ==> IntBytes(n)[0] != 0)
  {
    var b := IntBytes(n);
    if n < 256 {
      assert b[..|b| - 1] == [];
    } else {
      IntBytesValue(n / 256);
      assert b[..|b| - 1] == IntBytes(n / 256);
    }
  }

  /** A byte string without a leading zero is the shortest form of its value. */
  lemma {:induction false} ShortestBytes(b: seq<Byte>)
    requires b != [] && b[0] != 0
    ensures BigEndian(b) > 0 && IntBytes(BigEndian(b)) == b
  {
    var rest := b[..|b| - 1];
    if rest == [] {
      assert b == [b[0]];
    } else {
      ShortestBytes(rest);
      ModUnique(BigEndian(b), 256, BigEndian(rest), b[|b| - 1]);
      assert b == rest + [b[|b| - 1]];
    }
  }

  lemma {:induction false} IntBytesLength(n: nat, k: nat)
    requires k > 0
    ensures |IntBytes(n)| <= k <==> n < Pow2(8 * k)
    decreases k
  {
    PowersOfTwo();
    if k > 1 {
      Pow2Add(8, 8 * (k - 1));
      if n >= 256 {
        IntBytesLength(n / 256, k - 1);
        DivideBound(n, Pow2(8 * (k - 1)));
      }
    }
  }

  lemma DivideBound(n: nat, m: int)
    requires m > 0
    ensures n / 256 < m <==> n < 256 * m
  {
  }

  lemma EightBytes()
    ensures Pow2(64) == WORD
  {
    PowersOfTwo();
    Pow2Add(16, 16);
    Pow2Add(32, 32);
  }

  lemma SizeBytes(n: nat)
    requires n < WORD
    ensures |IntBytes(n)| <= 8
  {
    EightBytes();
    hide Pow2;
    IntBytesLength(n, 8);
  }
}
